/** Runs of the downloader: every file has one that finishes it, every file of more than eight
    chunks has one that stalls, and what becomes of stalled files and failed writes in any run. */
module DownloadRuns {
  import opened Bytes
  import opened Chunks
  import opened DownloadBuffers
  import opened Downloads

  ghost predicate Reached(s: State, remote: seq<seq<Byte>>) {
    exists states, es :: IsRun(states, remote, es) && s == states[|es|]
  }

  lemma ReachedInv(s: State, remote: seq<seq<Byte>>)
    requires Reached(s, remote)
    ensures Inv(s, remote)
  {
    var states, es :| IsRun(states, remote, es) && s == states[|es|];
    EveryRunKeepsInv(states, remote, es, |es|);
  }

  lemma RunNext(states: seq<State>, remote: seq<seq<Byte>>, es: seq<Event>, e: Event)
    requires IsRun(states, remote, es) && Enabled(states[|es|], remote, e)
    ensures IsRun(states + [Exec(states[|es|], remote, e)], remote, es + [e])
  {
    var states', es' := states + [Exec(states[|es|], remote, e)], es + [e];
    forall i | 0 <= i < |es'|
      ensures Steps(states'[i], remote, es'[i], states'[i + 1])
    {
      assert i < |es| ==> Steps(states[i], remote, es[i], states[i + 1]);
    }
  }

  lemma ReachNext(s: State, remote: seq<seq<Byte>>, e: Event)
    requires Reached(s, remote) && Enabled(s, remote, e)
    ensures Reached(Exec(s, remote, e), remote)
  {
    var states, es :| IsRun(states, remote, es) && s == states[|es|];
    RunNext(states, remote, es, e);
    assert (states + [Exec(s, remote, e)])[|es + [e]|] == Exec(s, remote, e);
  }

  // ---------------------------------------------------------------- one file, chunk after chunk

  /** The only file downloads in chunks, and exactly its first k chunks are flagged. */
  ghost predicate Ready(s: State, r: seq<Byte>, k: nat) {
    && |r| > 0 && |s.files| == 1 && s.files[0].status == DownloadChunk
    && |s.files[0].flags| == ChunkNum(|r|) && k <= ChunkNum(|r|)
    && forall p :: 0 <= p < |s.files[0].flags| ==> s.files[0].flags[p] == (p < k)
  }

  function Len(r: seq<Byte>, k: nat): int {
    Second(k, |r|) - First(k)
  }

  lemma LenBounds(r: seq<Byte>, k: nat)
    requires |r| > 0 && k < ChunkNum(|r|)
    ensures 0 < Len(r, k) <= CHUNK_SIZE && (k + 1 < ChunkNum(|r|) ==> Len(r, k) == CHUNK_SIZE)
  {}

  lemma NotFinished(s: State, r: seq<Byte>, k: nat)
    requires Inv(s, [r]) && Ready(s, r, k) && k < ChunkNum(|r|)
    ensures s.files[0].downloadSize != |s.files[0].content| == |r| && !TailSet(s.files[0].flags)
    ensures LeastClear(s.files[0].flags) == k && k !in s.files[0].requests
  {
    var file := s.files[0];
    assert FileOk(file, [r][0]);
    assert !file.flags[k] && !file.done[k];
    FullIffAllDone(file.done, |r|);
    assert !file.flags[|file.flags| - 1];
  }

  /** The buffer that takes the next chunk. */
  ghost predicate Takes(s: State, len: nat, j: nat) {
    PoolOk(s) && j < |s.pool| && FirstRoom(s, 0, len) == j
  }

  /** The loop of Tick starts the next chunk. */
  lemma Start(s: State, r: seq<Byte>, k: nat, j: nat) returns (s': State)
    requires Reached(s, [r]) && Ready(s, r, k) && k < ChunkNum(|r|)
    requires |s.files[0].requests| < PARALLEL_CHUNK_PER_FILE && Len(r, k) > 0 && Takes(s, Len(r, k), j)
    ensures Reached(s', [r]) && Ready(s', r, k + 1) && s' == Started(s, 0, k, s.pool[j], Len(r, k))
  {
    ReachedInv(s, [r]);
    NotFinished(s, r, k);
    ReachNext(s, [r], Loop(0));
    s' := Exec(s, [r], Loop(0));
    assert PutFile(s, 0, s.files[0]) == s;
  }

  /** The part of a state a chunk's request leaves alone. */
  ghost predicate SameBut(s: State, s': State, b: nat) {
    && b < |s.bufs| == |s'.bufs| && s'.pool == s.pool && s'.inIO == s.inIO && s'.ioDone == s.ioDone
    && forall a :: 0 <= a < |s.bufs| && a != b ==> s'.bufs[a] == s.bufs[a]
  }

  /** Chunk k of the file is requested, nothing has arrived, and it lies at position i of buffer b. */
  ghost predicate Asked(s: State, r: seq<Byte>, k: nat, b: nat, i: nat) {
    && |r| > 0 && k < ChunkNum(|r|) && Len(r, k) > 0 && Running(s, Chunk(0, k)) && |s.files| == 1
    && s.files[0].requests[k] == [] && SlotIs(s, b, i, Chunk(0, k))
    && s.bufs[b].slots[i].downloaded == 0 && s.bufs[b].slots[i].len == Len(r, k)
  }

  /** The whole range arrives in one piece. */
  lemma Arrive(s: State, r: seq<Byte>, k: nat, b: nat, i: nat) returns (s': State)
    requires Reached(s, [r]) && Asked(s, r, k, b, i)
    ensures Reached(s', [r]) && SameBut(s, s', b) && s'.bufs[b].slots == s.bufs[b].slots
    ensures s'.files == [s.files[0].(requests := s.files[0].requests[k := r[First(k)..Second(k, |r|)]])]
  {
    var data := r[First(k)..Second(k, |r|)];
    ReachNext(s, [r], Receive(Chunk(0, k), b, i, data));
    s' := Exec(s, [r], Receive(Chunk(0, k), b, i, data));
    var none: seq<Byte> := [];
    assert none + data == data;
  }

  /** The request completes, and its chunk is kept. */
  lemma Keep(s: State, r: seq<Byte>, k: nat, b: nat, i: nat) returns (s': State)
    requires Reached(s, [r]) && |r| > 0 && k < ChunkNum(|r|) && |s.files| == 1 && Running(s, Chunk(0, k))
    requires s.files[0].requests[k] == r[First(k)..Second(k, |r|)] && Len(r, k) > 0
    requires SlotIs(s, b, i, Chunk(0, k)) && |s.files[0].content| == |r|
    ensures Reached(s', [r]) && SameBut(s, s', b)
    ensures s'.bufs[b].slots == SetDownloaded(s.bufs[b].slots, Chunk(0, k), Len(r, k))
    ensures s'.files == [s.files[0].(requests := s.files[0].requests - {k})]
  {
    var c := Chunk(0, k);
    assert c in Keys(s.bufs[b].slots) by {
      assert s.bufs[b].slots[i] in s.bufs[b].slots;
    }
    ReachNext(s, [r], Complete(c, b, true));
    s' := Exec(s, [r], Complete(c, b, true));
  }

  lemma SameWithout(m: map<nat, seq<Byte>>, i: nat, body: seq<Byte>)
    ensures m[i := body] - {i} == m - {i}
  {}

  /** The range arrives and the chunk is kept. */
  lemma Bring(s: State, r: seq<Byte>, k: nat, b: nat, i: nat) returns (s': State)
    requires Reached(s, [r]) && Asked(s, r, k, b, i) && |s.files[0].content| == |r|
    ensures Reached(s', [r]) && SameBut(s, s', b)
    ensures s'.bufs[b].slots == SetDownloaded(s.bufs[b].slots, Chunk(0, k), Len(r, k))
    ensures s'.files == [s.files[0].(requests := s.files[0].requests - {k})]
  {
    var s1 := Arrive(s, r, k, b, i);
    s' := Keep(s1, r, k, b, i);
    SameWithout(s.files[0].requests, k, r[First(k)..Second(k, |r|)]);
  }

  /** What fetching chunk k leaves: one flag more, and its bytes in buffer pool[j]. */
  ghost predicate Fetched(s: State, s': State, r: seq<Byte>, k: nat, j: nat)
    requires |s.files| == 1 && k < |s.files[0].flags| && Len(r, k) > 0 && Takes(s, Len(r, k), j)
  {
    var b := s.pool[j];
    && s'.files == [s.files[0].(flags := s.files[0].flags[k := true])] && SameBut(s, s', b)
    && s'.bufs[b].slots ==
         SetDownloaded(Inserted(s.bufs[b].slots, CAP, 0, k, Len(r, k)), Chunk(0, k), Len(r, k))
  }

  lemma BackAsBefore(m: map<nat, seq<Byte>>, k: nat, body: seq<Byte>)
    requires k !in m
    ensures m[k := body] - {k} == m
  {}

  lemma StartedIsAsked(s: State, r: seq<Byte>, k: nat, b: nat)
    requires Ready(s, r, k) && k < ChunkNum(|r|) && |s.files[0].done| == ChunkNum(|r|) && b < |s.bufs|
    requires Len(r, k) > 0 && Fits(s.bufs[b].slots, CAP, Len(r, k))
    ensures Asked(Started(s, 0, k, b, Len(r, k)), r, k, b, Position(s.bufs[b].slots, CAP, Len(r, k)))
  {}

  lemma Fetch(s: State, r: seq<Byte>, k: nat, j: nat) returns (s': State)
    requires Reached(s, [r]) && Ready(s, r, k) && k < ChunkNum(|r|)
    requires |s.files[0].requests| < PARALLEL_CHUNK_PER_FILE && Len(r, k) > 0 && Takes(s, Len(r, k), j)
    ensures Reached(s', [r]) && Ready(s', r, k + 1) && Fetched(s, s', r, k, j)
  {
    ReachedInv(s, [r]);
    assert FileOk(s.files[0], [r][0]);
    NotFinished(s, r, k);
    var s1 := Start(s, r, k, j);
    StartedIsAsked(s, r, k, s.pool[j]);
    s' := Bring(s1, r, k, s.pool[j], Position(s.bufs[s.pool[j]].slots, CAP, Len(r, k)));
    BackAsBefore(s.files[0].requests, k, []);
  }

  /** Buffer pool[j] holds one chunk, all of it arrived, and the I/O thread has nothing to do. */
  ghost predicate Loaded(s: State, j: nat) {
    && |s.files| == 1 && j < |s.pool| && s.pool[j] < |s.bufs| && s.inIO == [] && s.ioDone == []
    && |s.bufs[s.pool[j]].slots| == 1
    && var slot := s.bufs[s.pool[j]].slots[0];
    && slot.downloaded == slot.len && slot.file == 0 && slot.index < |s.files[0].done|
    && slot.cursor + slot.len <= |s.bufs[s.pool[j]].mem|
  }

  /** What storing buffer pool[j] leaves: its chunk complete, and the buffer empty at the pool's end. */
  ghost predicate Stored(s: State, s': State, j: nat)
    requires Loaded(s, j)
  {
    var b := s.pool[j];
    var slot := s.bufs[b].slots[0];
    && |s'.files| == 1 && s'.files[0].done == s.files[0].done[slot.index := true]
    && s'.files[0].flags == s.files[0].flags && s'.files[0].requests == s.files[0].requests
    && s'.files[0].status == s.files[0].status
    && |s'.bufs| == |s.bufs| && s'.bufs[b].slots == []
    && (forall a :: 0 <= a < |s.bufs| && a != b ==> s'.bufs[a].slots == s.bufs[a].slots)
    && s'.pool == s.pool[..j] + s.pool[j + 1..] + [b] && s'.inIO == [] && s'.ioDone == []
  }

  lemma Store(s: State, r: seq<Byte>, j: nat) returns (s': State)
    requires Reached(s, [r]) && Loaded(s, j)
    ensures Reached(s', [r]) && Stored(s, s', j)
  {
    var b := s.pool[j];
    var zeros := seq(s.bufs[b].slots[0].len, _ => 0);
    ReachNext(s, [r], Transfer(j));
    var s1 := Exec(s, [r], Transfer(j));
    assert s1.inIO == [b];
    ReachNext(s1, [r], Save(true, zeros));
    var s2 := Exec(s1, [r], Save(true, zeros));
    assert s2.bufs[b].slots == [];
    ReachNext(s2, [r], Release);
    var s3 := Exec(s2, [r], Release);
    assert s3.inIO == [] && s3.ioDone == [b];
    ReachNext(s3, [r], Recycle);
    s' := Exec(s3, [r], Recycle);
  }

  // ---------------------------------------------------------------- the first chunk

  /** The file has just learnt its size. */
  ghost predicate Clean(s: State, r: seq<Byte>) {
    && Ready(s, r, 0) && s.files[0].requests == map[] && |s.files[0].done| == ChunkNum(|r|)
    && |s.pool| == 4 && |s.bufs| == 4 && PoolOk(s) && s.inIO == [] && s.ioDone == []
    && forall b :: 0 <= b < |s.bufs| ==> s.bufs[b].slots == []
  }

  lemma EmptyTakes(s: State, len: nat)
    requires PoolOk(s) && |s.pool| > 0 && s.bufs[s.pool[0]].slots == [] && len <= CAP
    ensures Takes(s, len, 0) && Inserted([], CAP, 0, 0, len) == [Slot(0, 0, 0, len, 0)]
  {
    assert Fits([], CAP, len);
  }

  lemma OneInserted(k: nat, len: nat)
    requires len <= CAP
    ensures Fits([], CAP, len) && Inserted([], CAP, 0, k, len) == [Slot(0, k, 0, len, 0)]
    ensures SetDownloaded([Slot(0, k, 0, len, 0)], Chunk(0, k), len) == [Slot(0, k, 0, len, len)]
  {}

  lemma FirstClean(r: seq<Byte>) returns (s: State)
    requires |r| > 0
    ensures Reached(s, [r]) && Clean(s, r)
  {
    var buf := BufState(seq(CAP, _ => 0), []);
    var start := State([FileState(Waiting, [], [], 0, [], map[], {})], [buf, buf, buf, buf], [0, 1, 2, 3], [], []);
    var none: seq<Event> := [];
    assert IsRun([start], [r], none) && [start][|none|] == start;
    ReachNext(start, [r], Head(0));
    s := Exec(start, [r], Head(0));
  }

  // ---------------------------------------------------------------- every long file can stall

  /** Chunk 0 is still under way; it and the next chunks share the buffer pool[0], which holds i of
      them, and the other buffers are empty. */
  ghost predicate Waits(s: State, r: seq<Byte>, k: nat, i: nat) {
    && Ready(s, r, k) && s.files[0].requests == map[0 := []] && |s.files[0].done| == ChunkNum(|r|)
    && |s.pool| == 4 && |s.bufs| == 4 && PoolOk(s) && s.inIO == [] && s.ioDone == []
    && i <= 3 && s.bufs[s.pool[0]].slots == FullSlots()[..i]
    && forall j :: 1 <= j < 4 ==> s.pool[j] != s.pool[0] && s.bufs[s.pool[j]].slots == []
  }

  lemma PoolDistinct(s: State)
    requires PlacesOk(s) && |s.pool| == 4
    ensures forall i, j :: 0 <= i < j < 4 ==> s.pool[i] != s.pool[j]
  {
    forall i, j | 0 <= i < j < 4
      ensures s.pool[i] != s.pool[j]
    {
      var x := s.pool[i];
      assert s.pool == s.pool[..i] + [x] + s.pool[i + 1..j] + [s.pool[j]] + s.pool[j + 1..];
      assert (multiset(s.pool) + multiset(s.inIO) + multiset(s.ioDone))[x] == multiset{0, 1, 2, 3}[x] <= 1;
    }
  }

  function FullSlots(): seq<Slot> {
    [Slot(0, 0, 0, CHUNK_SIZE, 0), Slot(0, 1, CHUNK_SIZE, CHUNK_SIZE, CHUNK_SIZE),
     Slot(0, 2, 2 * CHUNK_SIZE, CHUNK_SIZE, CHUNK_SIZE)]
  }

  lemma FullTakesNothing(len: nat)
    requires 0 < len
    ensures !Fits(FullSlots(), CAP, len)
  {
    var slots := FullSlots();
    assert forall i :: 0 <= i <= 3 ==> !GapBefore(slots, CAP, i, len);
  }

  lemma SecondTakes(s: State, len: nat)
    requires PoolOk(s) && |s.pool| == 4 && 0 < len <= CAP
    requires s.bufs[s.pool[0]].slots == FullSlots() && s.bufs[s.pool[1]].slots == []
    ensures Takes(s, len, 1)
  {
    FullTakesNothing(len);
    OneInserted(0, len);
    assert FirstRoom(s, 0, len) == FirstRoom(s, 1, len);
  }

  lemma Shared(i: nat)
    requires 1 <= i <= 2
    ensures var slots := FullSlots()[..i];
      && Fits(slots, CAP, CHUNK_SIZE)
      && SetDownloaded(Inserted(slots, CAP, 0, i, CHUNK_SIZE), Chunk(0, i), CHUNK_SIZE) == FullSlots()[..i + 1]
  {
    var slots := FullSlots()[..i];
    assert forall j :: 0 <= j < i ==> !GapBefore(slots, CAP, j, CHUNK_SIZE);
    assert GapBefore(slots, CAP, i, CHUNK_SIZE);
    assert Position(slots, CAP, CHUNK_SIZE) == i by {
      assert FirstGap(slots, CAP, 0, CHUNK_SIZE) >= i;
    }
    assert slots[..i] == slots && slots[i..] == [];
  }

  lemma FirstWaits(r: seq<Byte>) returns (s: State)
    requires |r| > 0 && ChunkNum(|r|) > 1
    ensures Reached(s, [r]) && Waits(s, r, 1, 1)
  {
    var s0 := FirstClean(r);
    LenBounds(r, 0);
    EmptyTakes(s0, Len(r, 0));
    OneInserted(0, Len(r, 0));
    ReachedInv(s0, [r]);
    PoolDistinct(s0);
    s := Start(s0, r, 0, 0);
    var none: map<nat, seq<Byte>> := map[];
    assert none[0 := []] == map[0 := []];
    assert FullSlots()[..1] == [Slot(0, 0, 0, CHUNK_SIZE, 0)];
  }

  lemma NextShares(s: State, r: seq<Byte>, i: nat) returns (s': State)
    requires Reached(s, [r]) && 1 <= i <= 2 && Waits(s, r, i, i) && i + 1 < ChunkNum(|r|)
    ensures Reached(s', [r]) && Waits(s', r, i + 1, i + 1)
  {
    LenBounds(r, i);
    Shared(i);
    assert Takes(s, Len(r, i), 0);
    s' := Fetch(s, r, i, 0);
  }

  /** Chunk k has been fetched into the second buffer. */
  ghost predicate Brought(s: State, s1: State, r: seq<Byte>, k: nat) {
    && Ready(s1, r, k + 1) && s1.files[0].requests == map[0 := []] && |s1.files[0].done| == ChunkNum(|r|)
    && s1.pool == s.pool && |s1.bufs| == 4 && s1.inIO == [] && s1.ioDone == [] && k < ChunkNum(|r|)
    && |s.pool| == 4 && PoolOk(s) && |s.bufs| == 4
    && s1.bufs[s.pool[1]].slots == [Slot(0, k, 0, Len(r, k), Len(r, k))]
    && forall a :: 0 <= a < 4 && a != s.pool[1] ==> s1.bufs[a] == s.bufs[a]
  }

  lemma FetchSecond(s: State, r: seq<Byte>, k: nat) returns (s1: State)
    requires Reached(s, [r]) && 3 <= k && Waits(s, r, k, 3) && k < ChunkNum(|r|)
    ensures Reached(s1, [r]) && Brought(s, s1, r, k)
  {
    LenBounds(r, k);
    assert FullSlots()[..3] == FullSlots();
    SecondTakes(s, Len(r, k));
    OneInserted(k, Len(r, k));
    s1 := Fetch(s, r, k, 1);
  }

  lemma BroughtIsLoaded(s: State, s1: State, r: seq<Byte>, k: nat)
    requires Brought(s, s1, r, k) && Inv(s1, [r])
    ensures Loaded(s1, 1)
  {
    assert BufOk(s1, [r], s1.bufs[s.pool[1]]);
    assert SlotOk(s1, [r], s1.bufs[s.pool[1]].mem, s1.bufs[s.pool[1]].slots[0]);
  }

  lemma StoredWaits(s: State, s1: State, s2: State, r: seq<Byte>, k: nat)
    requires Waits(s, r, k, 3) && Brought(s, s1, r, k) && Loaded(s1, 1) && Stored(s1, s2, 1)
    requires forall i, j :: 0 <= i < j < 4 ==> s.pool[i] != s.pool[j]
    ensures Waits(s2, r, k + 1, 3)
  {
    assert s2.pool == [s.pool[0], s.pool[2], s.pool[3], s.pool[1]];
  }

  lemma NextWaits(s: State, r: seq<Byte>, k: nat) returns (s': State)
    requires Reached(s, [r]) && 3 <= k && Waits(s, r, k, 3) && k < ChunkNum(|r|)
    ensures Reached(s', [r]) && Waits(s', r, k + 1, 3)
  {
    var s1 := FetchSecond(s, r, k);
    ReachedInv(s, [r]);
    ReachedInv(s1, [r]);
    PoolDistinct(s);
    BroughtIsLoaded(s, s1, r, k);
    s' := Store(s1, r, 1);
    StoredWaits(s, s1, s', r, k);
  }

  lemma {:induction false} AllWaits(r: seq<Byte>, k: nat) returns (s: State)
    requires |r| > 0 && 3 <= k <= ChunkNum(|r|) && ChunkNum(|r|) > 3
    ensures Reached(s, [r]) && Waits(s, r, k, 3)
  {
    if k == 3 {
      s := FirstWaits(r);
      s := NextShares(s, r, 1);
      s := NextShares(s, r, 2);
    } else {
      s := AllWaits(r, k - 1);
      s := NextWaits(s, r, k - 1);
    }
  }

  /** Every file of more than eight chunks has a run that stalls: all other chunks are flagged when
      the request for chunk 0 fails. */
  lemma LongFileStalls(r: seq<Byte>) returns (states: seq<State>, es: seq<Event>)
    requires |r| > 0 && ChunkNum(|r|) > 8
    ensures IsRun(states, [r], es) && Stalled(states[|es|], 0, 0) && states[|es|].files[0].requests == map[]
  {
    var s := AllWaits(r, ChunkNum(|r|));
    ReachedInv(s, [r]);
    var e := Complete(Chunk(0, 0), s.pool[0], false);
    FirstCanFail(s, r, ChunkNum(|r|));
    ReachNext(s, [r], e);
    var s' := Exec(s, [r], e);
    FailureStalls(s, r);
    states, es :| IsRun(states, [r], es) && s' == states[|es|];
  }

  /** The request for chunk 0 can fail. */
  lemma FirstCanFail(s: State, r: seq<Byte>, k: nat)
    requires Inv(s, [r]) && Waits(s, r, k, 3)
    ensures Enabled(s, [r], Complete(Chunk(0, 0), s.pool[0], false))
  {
    var slots := s.bufs[s.pool[0]].slots;
    assert slots[0] == Slot(0, 0, 0, CHUNK_SIZE, 0) && slots[0] in slots && KeyOf(slots[0]) == Chunk(0, 0);
  }

  lemma FailureStalls(s: State, r: seq<Byte>)
    requires |r| > 0 && ChunkNum(|r|) > 8 && Waits(s, r, ChunkNum(|r|), 3)
    requires Enabled(s, [r], Complete(Chunk(0, 0), s.pool[0], false))
    ensures var s' := ExecComplete(s, Chunk(0, 0), s.pool[0], false);
      Stalled(s', 0, 0) && s'.files[0].requests == map[]
  {
    assert TailStart(ChunkNum(|r|)) > 0;
  }

  // ---------------------------------------------------------------- stalled files

  /** The last flag byte says that all chunks are flagged, but chunk x is not. */
  ghost predicate Stalled(s: State, f: nat, x: nat) {
    && f < |s.files| && s.files[f].status == DownloadChunk && x < |s.files[f].flags|
    && TailSet(s.files[f].flags) && !s.files[f].flags[x]
  }

  /** A response for one of the chunks of the last flag byte is rejected. */
  ghost predicate RejectsTail(s: State, remote: seq<seq<Byte>>, e: Event, f: nat) {
    && Enabled(s, remote, e) && e.Complete? && e.c.file == f && !Accepts(s.files[f], e.c.index, e.ok)
    && TailStart(|s.files[f].flags|) <= e.c.index
  }

  lemma StallLoop(s: State, remote: seq<seq<Byte>>, g: nat, f: nat, x: nat)
    requires Inv(s, remote) && Enabled(s, remote, Loop(g)) && Stalled(s, f, x)
    ensures Stalled(ExecLoop(s, g), f, x)
  {
    if g == f {
      StalledIsUnfinished(s, remote, f, x);
      StalledLoopIdles(s, f);
    } else {
      OtherLoop(s, g, f);
    }
  }

  /** The loop does nothing for an unfinished file whose last flag byte is full. */
  lemma StalledLoopIdles(s: State, f: nat)
    requires f < |s.files| && PoolOk(s) && TailSet(s.files[f].flags)
    requires s.files[f].downloadSize != |s.files[f].content|
    ensures ExecLoop(s, f) == s
  {
    assert PutFile(s, f, s.files[f]) == s;
  }

  /** The loop of one file leaves the others alone. */
  lemma OtherLoop(s: State, g: nat, f: nat)
    requires g < |s.files| && f < |s.files| && f != g && PoolOk(s)
    ensures |ExecLoop(s, g).files| == |s.files| && ExecLoop(s, g).files[f] == s.files[f]
  {
    var file := if s.files[g].downloadSize == |s.files[g].content| then s.files[g].(status := Finished) else s.files[g];
    StartNextCases(PutFile(s, g, file), g);
  }

  lemma StallOther(s: State, remote: seq<seq<Byte>>, e: Event, f: nat, x: nat)
    requires Enabled(s, remote, e) && !e.Loop? && !e.Complete? && Stalled(s, f, x)
    ensures Stalled(Exec(s, remote, e), f, x)
  {}

  lemma StallComplete(s: State, remote: seq<seq<Byte>>, c: Chunk, b: nat, ok: bool, f: nat, x: nat)
    requires Enabled(s, remote, Complete(c, b, ok)) && Stalled(s, f, x)
    ensures Stalled(ExecComplete(s, c, b, ok), f, x) <==> !RejectsTail(s, remote, Complete(c, b, ok), f)
  {
    if c.file == f && !Accepts(s.files[f], c.index, ok) {
      var flags := s.files[f].flags[c.index := false];
      assert !RejectsTail(s, remote, Complete(c, b, ok), f) ==> TailSet(flags);
      assert RejectsTail(s, remote, Complete(c, b, ok), f) ==> !flags[c.index];
    }
  }

  /** A step gets a stalled file going again exactly when it is such a rejection. */
  lemma StallStepIff(s: State, remote: seq<seq<Byte>>, e: Event, s': State, f: nat, x: nat)
    requires Inv(s, remote) && Steps(s, remote, e, s') && Stalled(s, f, x)
    ensures Stalled(s', f, x) <==> !RejectsTail(s, remote, e, f)
  {
    match e
    case Loop(g) => StallLoop(s, remote, g, f, x);
    case Complete(c, b, ok) => StallComplete(s, remote, c, b, ok, f, x);
    case _ => StallOther(s, remote, e, f, x);
  }

  lemma StalledIsUnfinished(s: State, remote: seq<seq<Byte>>, f: nat, x: nat)
    requires Inv(s, remote) && Stalled(s, f, x)
    ensures s.files[f].downloadSize != |s.files[f].content|
  {
    var file := s.files[f];
    assert FileOk(file, remote[f]);
    assert !file.done[x];
    FullIffAllDone(file.done, |remote[f]|);
  }

  /** Some event from moment i on and before j rejects a response for a chunk of the last flag byte. */
  ghost predicate TailRejected(states: seq<State>, remote: seq<seq<Byte>>, es: seq<Event>, i: nat, j: nat, f: nat)
    requires j <= |es| < |states|
    decreases j
  {
    i < j && (RejectsTail(states[j - 1], remote, es[j - 1], f) || TailRejected(states, remote, es, i, j - 1, f))
  }

  /** Once an early chunk was given back while the last flag byte was full, the file is stalled, and
      unfinished, at every later moment up to the first rejection for a chunk of that byte. */
  lemma {:induction false} StalledUntilRejection(states: seq<State>, remote: seq<seq<Byte>>, es: seq<Event>,
                                                 i: nat, j: nat, f: nat, x: nat)
    requires IsRun(states, remote, es) && i <= j <= |es| && Stalled(states[i], f, x)
    requires j > i ==> !TailRejected(states, remote, es, i, j - 1, f)
    ensures Stalled(states[j], f, x) <==> !TailRejected(states, remote, es, i, j, f)
    ensures Stalled(states[j], f, x) ==> states[j].files[f].status != Finished
    decreases j
  {
    if i < j {
      StalledUntilRejection(states, remote, es, i, j - 1, f, x);
      EveryRunKeepsInv(states, remote, es, j - 1);
      NextStep(states, remote, es, j - 1);
      StallStepIff(states[j - 1], remote, es[j - 1], states[j], f, x);
    }
  }

  lemma NextStep(states: seq<State>, remote: seq<seq<Byte>>, es: seq<Event>, k: nat)
    requires IsRun(states, remote, es) && k < |es|
    ensures Steps(states[k], remote, es[k], states[k + 1])
  {}

  // ---------------------------------------------------------------- failed writes

  /** The write of chunk x of file f fails. */
  ghost predicate FailsWrite(s: State, remote: seq<seq<Byte>>, e: Event, f: nat, x: nat) {
    && Enabled(s, remote, e) && e.Save? && !e.ok
    && KeyOf(s.bufs[s.inIO[0]].slots[0]) == Chunk(f, x)
  }

  ghost predicate LostIn(s: State, f: nat, x: nat) {
    f < |s.files| && x in s.files[f].lost
  }

  lemma LostBySave(s: State, remote: seq<seq<Byte>>, ok: bool, junk: seq<Byte>, f: nat, x: nat)
    requires Enabled(s, remote, Save(ok, junk))
    ensures LostIn(ExecSave(s, ok, junk), f, x) <==> LostIn(s, f, x) || FailsWrite(s, remote, Save(ok, junk), f, x)
  {}

  lemma LostByHead(s: State, remote: seq<seq<Byte>>, g: nat, f: nat, x: nat)
    requires Inv(s, remote) && Enabled(s, remote, Head(g))
    ensures LostIn(ExecHead(s, remote, g), f, x) <==> LostIn(s, f, x)
  {
    assert FileOk(s.files[g], remote[g]);
  }

  /** A chunk is lost after a step exactly when it was before or its write just failed. */
  lemma LostStepIff(s: State, remote: seq<seq<Byte>>, e: Event, s': State, f: nat, x: nat)
    requires Inv(s, remote) && Steps(s, remote, e, s')
    ensures LostIn(s', f, x) <==> LostIn(s, f, x) || FailsWrite(s, remote, e, f, x)
  {
    match e
    case Head(g) => LostByHead(s, remote, g, f, x);
    case Save(ok, junk) => LostBySave(s, remote, ok, junk, f, x);
    case Loop(g) => NotLostByLoop(s, g, f, x);
    case Receive(c, b, k, data) => NotLostByReceive(s, remote, c, b, k, data, f, x);
    case Complete(c, b, ok) => NotLostByComplete(s, remote, c, b, ok, f, x);
    case Progress(c, b, k, n) => assert s'.files == s.files;
    case Transfer(j) => assert s'.files == s.files;
    case Recycle => assert s'.files == s.files;
    case Release => assert s'.files == s.files;
  }

  lemma NotLostByLoop(s: State, g: nat, f: nat, x: nat)
    requires g < |s.files| && PoolOk(s)
    ensures LostIn(ExecLoop(s, g), f, x) <==> LostIn(s, f, x)
  {
    var file := if s.files[g].downloadSize == |s.files[g].content| then s.files[g].(status := Finished) else s.files[g];
    StartNextCases(PutFile(s, g, file), g);
  }

  lemma NotLostByReceive(s: State, remote: seq<seq<Byte>>, c: Chunk, b: nat, k: nat, data: seq<Byte>, f: nat, x: nat)
    requires Enabled(s, remote, Receive(c, b, k, data))
    ensures LostIn(ExecReceive(s, c, b, k, data), f, x) <==> LostIn(s, f, x)
  {}

  lemma NotLostByComplete(s: State, remote: seq<seq<Byte>>, c: Chunk, b: nat, ok: bool, f: nat, x: nat)
    requires Enabled(s, remote, Complete(c, b, ok))
    ensures LostIn(ExecComplete(s, c, b, ok), f, x) <==> LostIn(s, f, x)
  {}

  ghost predicate WriteFailed(states: seq<State>, remote: seq<seq<Byte>>, es: seq<Event>, j: nat, f: nat, x: nat)
    requires j <= |es| < |states|
  {
    j > 0 && (FailsWrite(states[j - 1], remote, es[j - 1], f, x) || WriteFailed(states, remote, es, j - 1, f, x))
  }

  lemma NothingLostAtFirst(s: State, remote: seq<seq<Byte>>, f: nat, x: nat)
    requires Initial(s, remote)
    ensures !LostIn(s, f, x)
  {}

  lemma {:induction false} LostIffWriteFailed(states: seq<State>, remote: seq<seq<Byte>>, es: seq<Event>,
                                              j: nat, f: nat, x: nat)
    requires IsRun(states, remote, es) && j <= |es|
    ensures LostIn(states[j], f, x) <==> WriteFailed(states, remote, es, j, f, x)
  {
    if j == 0 {
      NothingLostAtFirst(states[0], remote, f, x);
    } else {
      LostIffWriteFailed(states, remote, es, j - 1, f, x);
      EveryRunKeepsInv(states, remote, es, j - 1);
      NextStep(states, remote, es, j - 1);
      LostStepIff(states[j - 1], remote, es[j - 1], states[j], f, x);
    }
  }

  /** The chunk is flagged and not complete, and no buffer holds it. */
  ghost predicate Stranded(s: State, f: nat, x: nat) {
    && f < |s.files| && x < |s.files[f].flags| && s.files[f].flags[x]
    && !(x < |s.files[f].done| && s.files[f].done[x])
    && forall b :: 0 <= b < |s.bufs| ==> Chunk(f, x) !in Keys(s.bufs[b].slots)
  }

  lemma LostIsStranded(s: State, remote: seq<seq<Byte>>, f: nat, x: nat)
    requires Inv(s, remote)
    ensures LostIn(s, f, x) <==> Stranded(s, f, x)
  {
    var c := Chunk(f, x);
    assert (d => Owed(s, d))(c) <==> HeldIn(KeySets(s), c);
    assert f < |s.files| ==> FileOk(s.files[f], remote[f]);
    assert forall b :: 0 <= b < |s.bufs| ==> KeySets(s)[b] == Keys(s.bufs[b].slots);
  }

  /** In every run a chunk is flagged, incomplete and in no buffer exactly when a write of it has
      failed before, and then its file is not finished. */
  lemma StrandedIffWriteFailed(states: seq<State>, remote: seq<seq<Byte>>, es: seq<Event>, j: nat, f: nat, x: nat)
    requires IsRun(states, remote, es) && j <= |es|
    ensures Stranded(states[j], f, x) <==> WriteFailed(states, remote, es, j, f, x)
    ensures Stranded(states[j], f, x) ==> states[j].files[f].status != Finished
  {
    LostIffWriteFailed(states, remote, es, j, f, x);
    EveryRunKeepsInv(states, remote, es, j);
    LostIsStranded(states[j], remote, f, x);
    if LostIn(states[j], f, x) {
      LostIsUnfinished(states[j], remote, f, x);
    }
  }

  lemma LostIsUnfinished(s: State, remote: seq<seq<Byte>>, f: nat, x: nat)
    requires Inv(s, remote) && LostIn(s, f, x)
    ensures s.files[f].status != Finished
  {
    var file := s.files[f];
    assert FileOk(file, remote[f]);
    assert file.status != Waiting ==> !file.done[x];
    if file.status == Finished {
      FullIffAllDone(file.done, |remote[f]|);
    }
  }

  /** Hence such a chunk stays where it is. */
  lemma StrandedForever(states: seq<State>, remote: seq<seq<Byte>>, es: seq<Event>, i: nat, j: nat, f: nat, x: nat)
    requires IsRun(states, remote, es) && i <= j <= |es| && Stranded(states[i], f, x)
    ensures Stranded(states[j], f, x) && states[j].files[f].status != Finished
  {
    StrandedIffWriteFailed(states, remote, es, i, f, x);
    StrandedIffWriteFailed(states, remote, es, j, f, x);
    FailedStays(states, remote, es, i, j, f, x);
  }

  lemma {:induction false} FailedStays(states: seq<State>, remote: seq<seq<Byte>>, es: seq<Event>,
                                       i: nat, j: nat, f: nat, x: nat)
    requires i <= j <= |es| < |states| && WriteFailed(states, remote, es, i, f, x)
    ensures WriteFailed(states, remote, es, j, f, x)
    decreases j
  {
    if i < j {
      FailedStays(states, remote, es, i, j - 1, f, x);
    }
  }
}
