/** The bump arena: blocks are carved one after the other out of a scratch buffer, then out of
    heap chunks, and are only given back all together.  Sizes and offsets are 64-bit sums. */
module Arena {
  import opened Options
  import opened Arithmetic
  import opened Bytes

  /** No object is as large as this. */
  const OBJECT_LIMIT: nat := 0x8000_0000_0000_0000

  /** The size of a chunk's link to the next one. */
  const HEADER: nat := 8

  function Wrapped(sum: nat): nat {
    sum % U64
  }

  /** A size rounded up to a multiple of eight. */
  function Rounded(size: nat): nat {
    var s := Wrapped(size + 7);
    s - s % 8
  }

  /** Rounding reserves enough bytes exactly for the sizes that do not wrap. */
  lemma RoundedEnoughIff(size: nat)
    requires size < U64
    ensures Rounded(size) >= size <==> size <= U64 - 8
    ensures Rounded(size) % 8 == 0 && (size <= U64 - 8 ==> Rounded(size) < size + 8)
    ensures size > U64 - 8 ==> Rounded(size) == 0
  {}

  // ---------------------------------------------------------------- blocks

  datatype Region = Scratch | Heap(index: nat)

  /** A pointer handed out: where it points and how many bytes were asked for. */
  datatype Block = Block(region: Region, offset: nat, size: nat)

  /** The arena's counters, the sizes of its chunks from the oldest to the newest, and the blocks
      handed out since the last Clear. */
  datatype State = State(
    scratchSize: nat,
    chunkSize: nat,
    isUsingScratch: bool,
    scratchOffset: nat,
    heapOffset: nat,
    chunks: seq<nat>,
    blocks: seq<Block>)

  /** The bytes of two blocks do not overlap. */
  predicate Apart(a: Block, b: Block) {
    a.region != b.region || a.offset + a.size <= b.offset || b.offset + b.size <= a.offset
  }

  ghost predicate AllApart(blocks: seq<Block>) {
    forall i, j :: 0 <= i < j < |blocks| ==> Apart(blocks[i], blocks[j])
  }

  predicate IsRegion(s: State, r: Region) {
    r.Heap? ==> r.index < |s.chunks|
  }

  function RegionSize(s: State, r: Region): nat
    requires IsRegion(s, r)
  {
    match r
    case Scratch => s.scratchSize
    case Heap(i) => s.chunks[i]
  }

  /** A block lies inside its region, at an aligned offset. */
  predicate Placed(s: State, b: Block) {
    IsRegion(s, b.region) && b.offset + b.size <= RegionSize(s, b.region) && b.offset % 8 == 0 && b.size > 0
  }

  ghost predicate AllPlaced(s: State) {
    forall i :: 0 <= i < |s.blocks| ==> Placed(s, s.blocks[i])
  }

  /** Every block of a region ends before `end`. */
  ghost predicate EndBefore(blocks: seq<Block>, r: Region, end: nat) {
    forall i :: 0 <= i < |blocks| && blocks[i].region == r ==> blocks[i].offset + blocks[i].size <= end
  }

  predicate Counters(s: State) {
    && s.scratchSize < OBJECT_LIMIT && s.chunkSize < OBJECT_LIMIT
    && s.scratchOffset <= s.scratchSize && s.scratchOffset % 8 == 0 && s.heapOffset % 8 == 0
    && (forall i :: 0 <= i < |s.chunks| ==> s.chunks[i] < OBJECT_LIMIT)
    && (s.chunks == [] ==> s.heapOffset == 0)
    && (s.chunks != [] ==> s.heapOffset <= s.chunks[|s.chunks| - 1] && s.chunkSize <= s.chunks[|s.chunks| - 1])
  }

  /** The guarantee: all blocks are aligned, inside their regions and pairwise disjoint, and the
      counters lie behind them. */
  ghost predicate Good(s: State) {
    && Counters(s) && AllPlaced(s) && AllApart(s.blocks)
    && EndBefore(s.blocks, Scratch, s.scratchOffset)
    && (s.chunks != [] ==> EndBefore(s.blocks, Heap(|s.chunks| - 1), s.heapOffset))
  }

  /** A block placed behind all blocks of its region is apart from all blocks. */
  lemma PushApart(blocks: seq<Block>, b: Block)
    requires AllApart(blocks) && EndBefore(blocks, b.region, b.offset)
    ensures AllApart(blocks + [b])
  {}

  lemma PushEnd(blocks: seq<Block>, b: Block, r: Region, end: nat, end': nat)
    requires EndBefore(blocks, r, end) && end <= end' && (b.region == r ==> b.offset + b.size <= end')
    ensures EndBefore(blocks + [b], r, end')
  {}

  lemma PushPlaced(s: State, s': State, b: Block)
    requires AllPlaced(s) && s'.blocks == s.blocks + [b] && Placed(s', b)
    requires s'.scratchSize == s.scratchSize && s.chunks <= s'.chunks
    ensures AllPlaced(s')
  {
    forall i | 0 <= i < |s'.blocks|
      ensures Placed(s', s'.blocks[i])
    {
      assert i < |s.blocks| ==> Placed(s, s.blocks[i]);
    }
  }

  // ---------------------------------------------------------------- Malloc

  predicate FitsScratch(s: State, size: nat) {
    s.isUsingScratch && Wrapped(s.scratchOffset + Rounded(size)) <= s.scratchSize
  }

  predicate FitsChunk(s: State, size: nat) {
    s.chunks != [] && Wrapped(s.heapOffset + Rounded(size)) <= s.chunkSize
  }

  function AllocSize(chunkSize: nat, size: nat): nat {
    Max(Rounded(size), chunkSize)
  }

  /** What the system's malloc is asked for, and the bytes a chunk of that size has. */
  function Requested(chunkSize: nat, size: nat): nat {
    Wrapped(HEADER + AllocSize(chunkSize, size))
  }

  function Capacity(requested: nat): nat {
    if requested < HEADER then 0 else requested - HEADER
  }

  /** The system never gives more than an object may have; `ok` is its answer otherwise. */
  predicate Given(chunkSize: nat, size: nat, ok: bool) {
    ok && Requested(chunkSize, size) < OBJECT_LIMIT
  }

  function Take(s: State, size: nat, ok: bool): (State, Option<Block>) {
    if size == 0 then (s, None)
    else if FitsScratch(s, size) then
      var b := Block(Scratch, s.scratchOffset, size);
      (s.(scratchOffset := Wrapped(s.scratchOffset + Rounded(size)), blocks := s.blocks + [b]), Some(b))
    else if FitsChunk(s, size) then
      var b := Block(Heap(|s.chunks| - 1), s.heapOffset, size);
      (s.(isUsingScratch := false, heapOffset := Wrapped(s.heapOffset + Rounded(size)), blocks := s.blocks + [b]),
       Some(b))
    else if !Given(s.chunkSize, size, ok) then (s.(isUsingScratch := false), None)
    else
      var b := Block(Heap(|s.chunks|), 0, size);
      (s.(isUsingScratch := false, chunks := s.chunks + [Capacity(Requested(s.chunkSize, size))],
          heapOffset := Rounded(size), blocks := s.blocks + [b]), Some(b))
  }

  /** The rounding, or the sum on the path taken, leaves 64 bits. */
  predicate Wraps(s: State, size: nat) {
    || size > U64 - 8
    || (if FitsScratch(s, size) then s.scratchOffset + Rounded(size) >= U64
        else if FitsChunk(s, size) then s.heapOffset + Rounded(size) >= U64
        else HEADER + AllocSize(s.chunkSize, size) >= U64)
  }

  /** A block is handed out although a sum wrapped. */
  predicate Overruns(s: State, size: nat, ok: bool) {
    Take(s, size, ok).1.Some? && Wraps(s, size)
  }

  lemma TakeScratchGood(s: State, size: nat, ok: bool)
    requires Good(s) && 0 < size < U64 && FitsScratch(s, size) && !Wraps(s, size)
    ensures Good(Take(s, size, ok).0)
  {
    RoundedEnoughIff(size);
    var s', b := Take(s, size, ok).0, Block(Scratch, s.scratchOffset, size);
    PushApart(s.blocks, b);
    PushPlaced(s, s', b);
    PushEnd(s.blocks, b, Scratch, s.scratchOffset, s'.scratchOffset);
    if s.chunks != [] {
      PushEnd(s.blocks, b, Heap(|s.chunks| - 1), s.heapOffset, s.heapOffset);
    }
  }

  lemma TakeChunkGood(s: State, size: nat, ok: bool)
    requires Good(s) && 0 < size < U64 && !FitsScratch(s, size) && FitsChunk(s, size) && !Wraps(s, size)
    ensures Good(Take(s, size, ok).0)
  {
    RoundedEnoughIff(size);
    var s', b := Take(s, size, ok).0, Block(Heap(|s.chunks| - 1), s.heapOffset, size);
    PushApart(s.blocks, b);
    PushPlaced(s, s', b);
    PushEnd(s.blocks, b, Scratch, s.scratchOffset, s.scratchOffset);
    PushEnd(s.blocks, b, Heap(|s.chunks| - 1), s.heapOffset, s'.heapOffset);
  }

  /** No block lies in a chunk that is not there yet. */
  lemma NewChunkEmpty(s: State)
    requires AllPlaced(s)
    ensures EndBefore(s.blocks, Heap(|s.chunks|), 0)
  {
    assert forall i :: 0 <= i < |s.blocks| ==> Placed(s, s.blocks[i]) && s.blocks[i].region != Heap(|s.chunks|);
  }

  lemma TakeNewGood(s: State, size: nat)
    requires Good(s) && 0 < size < U64 && !FitsScratch(s, size) && !FitsChunk(s, size) && !Wraps(s, size)
    requires Given(s.chunkSize, size, true)
    ensures Good(Take(s, size, true).0)
  {
    RoundedEnoughIff(size);
    var s', b := Take(s, size, true).0, Block(Heap(|s.chunks|), 0, size);
    NewChunkEmpty(s);
    PushApart(s.blocks, b);
    PushPlaced(s, s', b);
    PushEnd(s.blocks, b, Scratch, s.scratchOffset, s.scratchOffset);
    PushEnd(s.blocks, b, Heap(|s.chunks|), 0, s'.heapOffset);
  }

  /** A block handed out although a sum wrapped reaches beyond its region. */
  lemma OverrunIsOutside(s: State, size: nat, ok: bool)
    requires Counters(s) && size < U64 && Overruns(s, size, ok)
    ensures var (s', b) := Take(s, size, ok);
      IsRegion(s', b.value.region) && b.value.offset + b.value.size > RegionSize(s', b.value.region)
  {
    RoundedEnoughIff(size);
  }

  lemma OverrunLeavesRegion(s: State, size: nat, ok: bool)
    requires Counters(s) && size < U64 && Overruns(s, size, ok)
    ensures !Placed(Take(s, size, ok).0, Take(s, size, ok).1.value)
  {
    OverrunIsOutside(s, size, ok);
  }

  /** The guarantee survives a Malloc of any size exactly when no block is handed out although
      the rounding or the sum on the path taken wrapped. */
  lemma TakeGoodIff(s: State, size: nat, ok: bool)
    requires Good(s) && size < U64
    ensures Good(Take(s, size, ok).0) <==> !Overruns(s, size, ok)
  {
    var s', p := Take(s, size, ok).0, Take(s, size, ok).1;
    if p.Some? {
      assert s'.blocks[|s.blocks|] == p.value;
      if Wraps(s, size) {
        OverrunLeavesRegion(s, size, ok);
      } else if FitsScratch(s, size) {
        TakeScratchGood(s, size, ok);
      } else if FitsChunk(s, size) {
        TakeChunkGood(s, size, ok);
      } else {
        TakeNewGood(s, size);
      }
    }
  }

  /** The blocks handed out before stay where they are. */
  lemma OldBlocksStay(s: State, size: nat, ok: bool)
    requires AllPlaced(s)
    ensures var (s', b) := Take(s, size, ok);
      && s.blocks <= s'.blocks && s.chunks <= s'.chunks
      && (forall j :: 0 <= j < |s.blocks| ==> s'.blocks[j] == s.blocks[j] && Placed(s, s.blocks[j]))
      && (b.Some? ==> s'.blocks == s.blocks + [b.value] && b.value.size == size)
  {
    assert forall j :: 0 <= j < |s.blocks| ==> Placed(s, s.blocks[j]);
  }

  lemma TakenIsLast(s: State, size: nat, ok: bool, b: Block)
    requires Take(s, size, ok).1 == Some(b)
    ensures var s' := Take(s, size, ok).0;
      b.size == size && IsRegion(s', b.region) && |s'.blocks| == |s.blocks| + 1 && s'.blocks[|s.blocks|] == b
  {}

  /** Hence it survives exactly when the block handed out is inside its region. */
  lemma InsideIff(s: State, size: nat, ok: bool, b: Block)
    requires Good(s) && size < U64 && Take(s, size, ok).1 == Some(b)
    ensures var s' := Take(s, size, ok).0;
      && IsRegion(s', b.region) && b.size == size
      && (!Overruns(s, size, ok) <==> b.offset + size <= RegionSize(s', b.region))
  {
    var s' := Take(s, size, ok).0;
    TakenIsLast(s, size, ok, b);
    if Overruns(s, size, ok) {
      OverrunIsOutside(s, size, ok);
    } else {
      TakeGoodIff(s, size, ok);
      assert Placed(s', s'.blocks[|s.blocks|]);
    }
  }

  // ---------------------------------------------------------------- runs

  datatype Op = Malloc(size: nat, ok: bool) | Clear

  function Fresh(scratchSize: nat, chunkSize: nat): State {
    State(scratchSize, chunkSize, true, 0, 0, [], [])
  }

  function Apply(s: State, op: Op): State {
    match op
    case Malloc(size, ok) => Take(s, size, ok).0
    case Clear => Fresh(s.scratchSize, s.chunkSize)
  }

  function Run(s: State, ops: seq<Op>): State {
    if ops == [] then s else Apply(Run(s, ops[..|ops| - 1]), ops[|ops| - 1])
  }

  predicate OpOverruns(s: State, op: Op) {
    op.Malloc? && Overruns(s, op.size, op.ok)
  }

  /** The guarantee holds at every moment of a run. */
  ghost predicate AlwaysGood(s: State, ops: seq<Op>) {
    Good(Run(s, ops)) && (ops == [] || AlwaysGood(s, ops[..|ops| - 1]))
  }

  /** Some request of a run overruns. */
  ghost predicate SomeOverruns(s: State, ops: seq<Op>) {
    ops != [] &&
    (OpOverruns(Run(s, ops[..|ops| - 1]), ops[|ops| - 1]) || SomeOverruns(s, ops[..|ops| - 1]))
  }

  /** Over every run from a new arena, with requests of any 64-bit size, the guarantee holds at
      every moment exactly when no request of the run overruns. */
  lemma {:induction false} EveryRunGoodIff(scratchSize: nat, chunkSize: nat, ops: seq<Op>)
    requires scratchSize < OBJECT_LIMIT && chunkSize < OBJECT_LIMIT
    requires forall k :: 0 <= k < |ops| && ops[k].Malloc? ==> ops[k].size < U64
    ensures var s := Fresh(scratchSize, chunkSize); AlwaysGood(s, ops) <==> !SomeOverruns(s, ops)
  {
    if ops != [] {
      var before := ops[..|ops| - 1];
      EveryRunGoodIff(scratchSize, chunkSize, before);
      LastGoodIff(Run(Fresh(scratchSize, chunkSize), before), ops[|ops| - 1]);
    }
  }

  lemma LastGoodIff(s: State, op: Op)
    requires op.Malloc? ==> op.size < U64
    ensures Good(s) ==> (Good(Apply(s, op)) <==> !OpOverruns(s, op))
  {
    if Good(s) && op.Malloc? {
      TakeGoodIff(s, op.size, op.ok);
    }
  }

  /** Requests up to half the address space never overrun. */
  lemma SmallNeverOverruns(s: State, size: nat, ok: bool)
    requires Good(s) && size <= OBJECT_LIMIT - HEADER
    ensures !Overruns(s, size, ok)
  {}

  lemma WrappingSteps(s: State, ok: bool)
    requires s.isUsingScratch && s.scratchOffset == 0 && s.blocks == [] && 16 <= s.scratchSize
    ensures var s1 := Take(s, 16, ok).0;
      var s2 := Take(s1, U64 - 16, ok).0;
      && s1.blocks == [Block(Scratch, 0, 16)] && s2.blocks == s1.blocks + [Block(Scratch, 16, U64 - 16)]
      && s2.isUsingScratch && s2.scratchOffset == 0 && s2.scratchSize == s.scratchSize
  {
    assert Rounded(16) == 16 && Rounded(U64 - 16) == U64 - 16;
  }

  lemma TakeFirst(s: State, ok: bool)
    requires s.isUsingScratch && s.scratchOffset == 0 && 16 <= s.scratchSize
    ensures Take(s, 8, ok).0.blocks == s.blocks + [Block(Scratch, 0, 8)]
  {
    assert Rounded(8) == 8;
  }

  lemma RunThree(s: State, a: Op, b: Op, c: Op)
    ensures Run(s, [a, b, c]) == Apply(Apply(Apply(s, a), b), c)
  {
    assert [] + [a] == [a] && [a] + [b] == [a, b] && [a, b] + [c] == [a, b, c];
    RunMore(s, [], a);
    RunMore(s, [a], b);
    RunMore(s, [a, b], c);
  }

  /** A request that wraps the scratch offset back to zero makes the next block overlap the first. */
  lemma WrappedRequestOverlaps(scratchSize: nat, chunkSize: nat, ok: bool)
    requires 16 <= scratchSize < OBJECT_LIMIT
    ensures var s := Run(Fresh(scratchSize, chunkSize), [Malloc(16, ok), Malloc(U64 - 16, ok), Malloc(8, ok)]);
      |s.blocks| == 3 && s.blocks[0] == Block(Scratch, 0, 16) && s.blocks[2] == Block(Scratch, 0, 8)
      && !Apart(s.blocks[0], s.blocks[2])
  {
    var s := Fresh(scratchSize, chunkSize);
    RunThree(s, Malloc(16, ok), Malloc(U64 - 16, ok), Malloc(8, ok));
    WrappingSteps(s, ok);
    TakeFirst(Take(Take(s, 16, ok).0, U64 - 16, ok).0, ok);
  }

  lemma RunMore(s: State, ops: seq<Op>, op: Op)
    ensures Run(s, ops + [op]) == Apply(Run(s, ops), op)
  {
    assert (ops + [op])[..|ops|] == ops;
  }

  // ---------------------------------------------------------------- the class

  class Chunk {
    const next: Chunk?
    const data: array<Byte>

    constructor (n: Chunk?, size: nat)
      ensures next == n && fresh(data) && data.Length == size
    {
      next := n;
      data := new Byte[size](_ => 0);
    }
  }

  predicate LinkAt(chunks: seq<Chunk>, i: nat)
    requires i < |chunks|
  {
    chunks[i].next == if i == 0 then null else chunks[i - 1]
  }

  /** The links lead from the newest chunk to the oldest, each with memory of its own. */
  ghost predicate Linked(head: Chunk?, chunks: seq<Chunk>) {
    && head == (if chunks == [] then null else chunks[|chunks| - 1])
    && (forall i :: 0 <= i < |chunks| ==> LinkAt(chunks, i))
    && (forall i, j :: 0 <= i < j < |chunks| ==> chunks[i] != chunks[j] && chunks[i].data != chunks[j].data)
  }

  ghost function Sizes(chunks: seq<Chunk>): seq<nat> {
    seq(|chunks|, i requires 0 <= i < |chunks| => chunks[i].data.Length)
  }

  ghost predicate AllIn(chunks: seq<Chunk>, regions: set<array<Byte>>) {
    forall i :: 0 <= i < |chunks| ==> chunks[i].data in regions
  }

  lemma LinkedSnoc(c: Chunk, head: Chunk?, chunks: seq<Chunk>, regions: set<array<Byte>>)
    requires Linked(head, chunks) && c.next == head && AllIn(chunks, regions)
    requires c !in chunks && c.data !in regions
    ensures Linked(c, chunks + [c]) && AllIn(chunks + [c], regions + {c.data})
    ensures Sizes(chunks + [c]) == Sizes(chunks) + [c.data.Length]
  {
    var all := chunks + [c];
    forall i | 0 <= i < |all|
      ensures LinkAt(all, i)
    {
      assert i < |chunks| ==> LinkAt(chunks, i);
    }
  }

  /** A real pointer into a region. */
  datatype Pointer = Pointer(region: array<Byte>, offset: nat)

  /** The memory of a block. */
  datatype Window = Window(region: array<Byte>, offset: nat, size: nat)

  predicate Fits(w: Window) {
    w.offset + w.size <= w.region.Length
  }

  predicate Disjoint(a: Window, b: Window) {
    a.region != b.region || a.offset + a.size <= b.offset || b.offset + b.size <= a.offset
  }

  ghost function Held(w: Window): seq<Byte>
    reads w.region
  {
    if Fits(w) then w.region[w.offset..w.offset + w.size] else []
  }

  predicate PointsAt(p: Pointer, w: Window) {
    p.region == w.region && p.offset == w.offset
  }

  /** Copies into memory apart from the source, leaving all else alone. */
  method CopyBytes(src: Pointer, dst: Pointer, n: nat, ghost from: Window, ghost to: Window, ghost others: seq<Window>)
    requires PointsAt(src, from) && PointsAt(dst, to) && n <= from.size && n <= to.size
    requires Fits(from) && Fits(to) && Disjoint(from, to)
    requires forall i :: 0 <= i < |others| ==> Fits(others[i]) && Disjoint(others[i], to)
    modifies dst.region
    ensures SameStart(Held(to), old(Held(from)), n)
    ensures forall i :: 0 <= i < |others| ==> Held(others[i]) == old(Held(others[i]))
  {
    forall k | 0 <= k < n {
      dst.region[dst.offset + k] := src.region[src.offset + k];
    }
    assert forall k :: 0 <= k < n ==> Held(to)[k] == old(Held(from)[k]);
    forall i | 0 <= i < |others|
      ensures Held(others[i]) == old(Held(others[i]))
    {
      assert forall k :: 0 <= k < others[i].size ==> Held(others[i])[k] == old(Held(others[i])[k]);
    }
  }

  predicate SameStart(a: seq<Byte>, b: seq<Byte>, n: nat) {
    n <= |a| && n <= |b| && a[..n] == b[..n]
  }

  class ArenaMemoryPool {
    const heapChunkSize: nat
    var heapHead: Chunk?
    var currentHeapChunk: Chunk?
    var heapOffset: nat
    const scratch: array<Byte>
    var scratchOffset: nat
    var isUsingScratch: bool
    ghost var chunks: seq<Chunk>
    ghost var blocks: seq<Block>
    /** The scratch buffer and the chunks' data. */
    ghost var regions: set<array<Byte>>

    ghost function Now(): State
      reads this
    {
      State(scratch.Length, heapChunkSize, isUsingScratch, scratchOffset, heapOffset, Sizes(chunks), blocks)
    }

    /** The list of chunks is sound, whatever was handed out. */
    ghost predicate Wired()
      reads this
    {
      && Linked(heapHead, chunks) && currentHeapChunk == heapHead
      && AllIn(chunks, regions) && scratch in regions
      && (forall i :: 0 <= i < |chunks| ==> chunks[i].data != scratch)
    }

    ghost predicate Valid()
      reads this
    {
      Wired() && Good(Now())
    }

    constructor (buffer: array<Byte>, chunkSize: nat)
      requires buffer.Length < OBJECT_LIMIT && chunkSize < OBJECT_LIMIT
      ensures Valid() && scratch == buffer && Now() == Fresh(buffer.Length, chunkSize)
    {
      heapChunkSize, scratch := chunkSize, buffer;
      heapHead, currentHeapChunk, heapOffset, scratchOffset, isUsingScratch := null, null, 0, 0, true;
      chunks, blocks, regions := [], [], {buffer};
    }

    /** The memory of a block. */
    ghost function WindowOf(b: Block): Window
      reads this
    {
      match b.region
      case Scratch => Window(scratch, b.offset, b.size)
      case Heap(i) => if i < |chunks| then Window(chunks[i].data, b.offset, b.size) else Window(scratch, 0, 0)
    }

    ghost predicate PointsTo(p: Pointer, b: Block)
      reads this
    {
      IsRegion(Now(), b.region) && p.region == WindowOf(b).region && p.offset == b.offset
    }

    /** What a block holds. */
    ghost function Contents(b: Block): seq<Byte>
      reads this, WindowOf(b).region
    {
      Held(WindowOf(b))
    }

    /** The memory of a new chunk is what the system was asked for less the link. */
    method AddChunk(requested: nat)
      requires Wired()
      modifies this`heapHead, this`currentHeapChunk, this`heapOffset, this`chunks, this`regions
      ensures Wired() && heapOffset == 0 && heapHead != null && fresh(heapHead) && fresh(heapHead.data)
      ensures chunks == old(chunks) + [heapHead] && regions == old(regions) + {heapHead.data}
      ensures Sizes(chunks) == Sizes(old(chunks)) + [Capacity(requested)]
    {
      var newChunk := new Chunk(heapHead, Capacity(requested));
      LinkedSnoc(newChunk, heapHead, chunks, regions);
      heapHead := newChunk;
      currentHeapChunk := newChunk;
      heapOffset := 0;
      chunks, regions := chunks + [newChunk], regions + {newChunk.data};
    }

    /** Malloc for a request of any 64-bit size: afterwards the arena's guarantee holds exactly
        unless a block was handed out although a sum wrapped.  `mallocOk` is the system's answer. */
    method Malloc(size: nat, mallocOk: bool) returns (ptr: Option<Pointer>)
      requires Valid() && size < U64
      modifies this
      ensures Wired() && Now() == Take(old(Now()), size, mallocOk).0
      ensures Valid() <==> !Overruns(old(Now()), size, mallocOk)
      ensures var b := Take(old(Now()), size, mallocOk).1;
        if b.Some? then ptr.Some? && PointsTo(ptr.value, b.value) else ptr.None?
      ensures ptr.Some? ==> ptr.value.region in old(regions) || fresh(ptr.value.region)
      ensures old(chunks) <= chunks && old(regions) <= regions
      ensures Valid() ==> forall j :: 0 <= j < |old(blocks)| ==> Contents(old(blocks)[j]) == old(Contents(blocks[j]))
      ensures Valid() && ptr.Some? ==> |blocks| == |old(blocks)| + 1 && PointsTo(ptr.value, blocks[|old(blocks)|])
                                       && blocks[|old(blocks)|].size == size && old(blocks) <= blocks
    {
      TakeGoodIff(Now(), size, mallocOk);
      OldBlocksStay(Now(), size, mallocOk);
      ptr := Carve(size, mallocOk);
    }

    /** The steps of Malloc. */
    method Carve(size: nat, mallocOk: bool) returns (ptr: Option<Pointer>)
      requires Wired()
      modifies this
      ensures Wired() && Now() == Take(old(Now()), size, mallocOk).0
      ensures var b := Take(old(Now()), size, mallocOk).1;
        if b.Some? then ptr.Some? && PointsTo(ptr.value, b.value) else ptr.None?
      ensures ptr.Some? ==> ptr.value.region in old(regions) || fresh(ptr.value.region)
      ensures old(chunks) <= chunks && old(regions) <= regions
    {
      if size == 0 {
        return None;
      }
      var rounded := Rounded(size);
      if isUsingScratch && Wrapped(scratchOffset + rounded) <= scratch.Length {
        ptr := Some(Pointer(scratch, scratchOffset));
        blocks := blocks + [Block(Scratch, scratchOffset, size)];
        scratchOffset := Wrapped(scratchOffset + rounded);
        return;
      }
      ptr := CarveChunk(size, mallocOk);
    }

    /** The part of Malloc after the scratch buffer. */
    method CarveChunk(size: nat, mallocOk: bool) returns (ptr: Option<Pointer>)
      requires Wired() && size > 0 && !FitsScratch(Now(), size)
      modifies this
      ensures Wired() && Now() == Take(old(Now()), size, mallocOk).0
      ensures var b := Take(old(Now()), size, mallocOk).1;
        if b.Some? then ptr.Some? && PointsTo(ptr.value, b.value) else ptr.None?
      ensures ptr.Some? ==> ptr.value.region in old(regions) || fresh(ptr.value.region)
      ensures old(chunks) <= chunks && old(regions) <= regions
    {
      var rounded := Rounded(size);
      isUsingScratch := false;
      if currentHeapChunk == null || Wrapped(heapOffset + rounded) > heapChunkSize {
        var requested := Wrapped(HEADER + Max(rounded, heapChunkSize));
        if !mallocOk || requested >= OBJECT_LIMIT {
          return None;
        }
        AddChunk(requested);
      }
      var p := NextBlock(size);
      ptr := Some(p);
    }

    /** The next block of the newest chunk. */
    method NextBlock(size: nat) returns (ptr: Pointer)
      requires Wired() && currentHeapChunk != null && |chunks| > 0
      modifies this`blocks, this`heapOffset
      ensures Wired()
      ensures var b := Block(Heap(|chunks| - 1), old(heapOffset), size);
        && PointsTo(ptr, b)
        && Now() == old(Now()).(heapOffset := Wrapped(old(heapOffset) + Rounded(size)), blocks := old(blocks) + [b])
      ensures ptr.region in regions
    {
      assert chunks[|chunks| - 1] == currentHeapChunk;
      ptr := Pointer(currentHeapChunk.data, heapOffset);
      blocks := blocks + [Block(Heap(|chunks| - 1), heapOffset, size)];
      heapOffset := Wrapped(heapOffset + Rounded(size));
    }

    /** Realloc to any 64-bit size: a new block as Malloc gives it.  Unless it overruns, it starts
        with the old block's first bytes and no block handed out before changes. */
    method Realloc(original: Option<Pointer>, originalSize: nat, newSize: nat, mallocOk: bool, ghost i: nat)
      returns (ptr: Option<Pointer>)
      requires Valid() && newSize < U64
      requires original.Some? ==> i < |blocks| && PointsTo(original.value, blocks[i]) && originalSize <= blocks[i].size
      modifies this, regions
      ensures Wired() && Now() == Take(old(Now()), newSize, mallocOk).0
      ensures Valid() <==> !Overruns(old(Now()), newSize, mallocOk)
      ensures var b := Take(old(Now()), newSize, mallocOk).1;
        if b.Some? then ptr.Some? && PointsTo(ptr.value, b.value) else ptr.None?
      ensures Valid() ==> forall j :: 0 <= j < |old(blocks)| ==> Contents(old(blocks)[j]) == old(Contents(blocks[j]))
      ensures Valid() && ptr.Some? && original.Some? ==>
                SameStart(Contents(blocks[|blocks| - 1]), old(Contents(blocks[i])), Min(originalSize, newSize))
    {
      if original.None? {
        ptr := Malloc(newSize, mallocOk);
        return;
      }
      if newSize == 0 {
        return None;
      }
      ptr := Move(original.value, originalSize, newSize, mallocOk, i);
    }

    /** The part of Realloc that gives a block a new place. */
    method Move(src: Pointer, originalSize: nat, newSize: nat, mallocOk: bool, ghost i: nat)
      returns (ptr: Option<Pointer>)
      requires Valid() && 0 < newSize < U64
      requires i < |blocks| && PointsTo(src, blocks[i]) && originalSize <= blocks[i].size
      modifies this, regions
      ensures Wired() && Now() == Take(old(Now()), newSize, mallocOk).0
      ensures Valid() <==> !Overruns(old(Now()), newSize, mallocOk)
      ensures var b := Take(old(Now()), newSize, mallocOk).1;
        if b.Some? then ptr.Some? && PointsTo(ptr.value, b.value) else ptr.None?
      ensures Valid() ==> forall j :: 0 <= j < |old(blocks)| ==> Contents(old(blocks)[j]) == old(Contents(blocks[j]))
      ensures Valid() && ptr.Some? ==>
                SameStart(Contents(blocks[|blocks| - 1]), old(Contents(blocks[i])), Min(originalSize, newSize))
    {
      ghost var was := Now();
      ptr := Malloc(newSize, mallocOk);
      ghost var b := Take(was, newSize, mallocOk).1;
      if b.Some? {
        InsideIff(was, newSize, mallocOk, b.value);
        RegionLength(ptr.value, b.value);
      }
      // a block that overruns has no such memory: nothing is said about copying to it
      if ptr.Some? && originalSize > 0 && ptr.value.offset + newSize <= ptr.value.region.Length {
        Copy(src, ptr.value, Min(originalSize, newSize), i);
      }
    }

    /** Copies the first bytes of block i to the block handed out last. */
    method Copy(src: Pointer, dst: Pointer, n: nat, ghost i: nat)
      requires Valid() && i < |blocks| - 1 && PointsTo(src, blocks[i]) && PointsTo(dst, blocks[|blocks| - 1])
      requires n <= blocks[i].size && n <= blocks[|blocks| - 1].size
      modifies dst.region
      ensures SameStart(Contents(blocks[|blocks| - 1]), old(Contents(blocks[i])), n)
      ensures forall j :: 0 <= j < |blocks| - 1 ==> Contents(blocks[j]) == old(Contents(blocks[j]))
    {
      ghost var last := |blocks| - 1;
      ghost var from, to, others := WindowOf(blocks[i]), WindowOf(blocks[last]), Windows(last);
      OthersApart(last);
      WindowsApart(blocks[i], blocks[last]);
      CopyBytes(src, dst, n, from, to, others);
      assert WindowOf(blocks[i]) == from && WindowOf(blocks[last]) == to;
      forall j | 0 <= j < last
        ensures Contents(blocks[j]) == old(Contents(blocks[j]))
      {
        assert Held(others[j]) == old(Held(others[j]));
      }
    }

    /** The memory of the first blocks. */
    ghost function Windows(n: nat): (ws: seq<Window>)
      reads this
      requires n <= |blocks| && Valid()
      ensures |ws| == n && forall j :: 0 <= j < n ==> Placed(Now(), blocks[j]) && ws[j] == WindowOf(blocks[j])
    {
      assert AllPlaced(Now());
      if n == 0 then [] else
        assert Placed(Now(), blocks[n - 1]);
        Windows(n - 1) + [WindowOf(blocks[n - 1])]
    }

    lemma RegionLength(p: Pointer, b: Block)
      requires Wired() && PointsTo(p, b)
      ensures p.region.Length == RegionSize(Now(), b.region)
    {}

    /** The newest block's memory is apart from the others'. */
    lemma OthersApart(last: nat)
      requires Valid() && last + 1 == |blocks|
      ensures forall j :: 0 <= j < last ==> Fits(Windows(last)[j]) && Disjoint(Windows(last)[j], WindowOf(blocks[last]))
    {
      forall j | 0 <= j < last
        ensures Fits(Windows(last)[j]) && Disjoint(Windows(last)[j], WindowOf(blocks[last]))
      {
        WindowsApart(blocks[j], blocks[last]);
      }
    }

    lemma WindowsApart(a: Block, b: Block)
      requires Wired() && Placed(Now(), a) && Placed(Now(), b) && Apart(a, b)
      ensures Fits(WindowOf(a)) && Fits(WindowOf(b)) && Disjoint(WindowOf(a), WindowOf(b))
    {}

    /** Gives every chunk back once, the newest first. */
    method Clear() returns (ghost freed: seq<Chunk>)
      requires Wired()
      modifies this
      ensures Wired() && Now() == Fresh(scratch.Length, heapChunkSize)
      ensures |freed| == |old(chunks)| && forall i :: 0 <= i < |freed| ==> freed[i] == old(chunks)[|freed| - 1 - i]
    {
      freed := [];
      var current := heapHead;
      while current != null
        invariant |freed| <= |chunks|
        invariant forall i :: 0 <= i < |freed| ==> freed[i] == chunks[|chunks| - 1 - i]
        invariant current == if |freed| < |chunks| then chunks[|chunks| - 1 - |freed|] else null
        decreases |chunks| - |freed|
      {
        var prev := current.next;
        assert LinkAt(chunks, |chunks| - 1 - |freed|);
        freed := freed + [current];
        current := prev;
      }
      heapHead, currentHeapChunk, heapOffset, scratchOffset, isUsingScratch := null, null, 0, 0, true;
      chunks, blocks, regions := [], [], {scratch};
    }
  }
}
