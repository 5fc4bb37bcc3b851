/** The chunked downloader: a main thread that starts requests and moves buffers, a network
    thread that fills them, an I/O thread that writes them out.  Every step of any thread is
    one event; a run is any interleaving of events over any number of files. */
module Downloads {
  import opened Options
  import opened Bytes
  import opened ResponseBodies
  import opened Chunks
  import opened DownloadBuffers

  const BUF_NUM: nat := 4
  const BUF_CHUNK_NUM: nat := 3
  const CAP: nat := BUF_CHUNK_NUM * CHUNK_SIZE
  const PARALLEL_CHUNK_PER_FILE: nat := 3

  datatype Status = Waiting | DownloadChunk | Finished

  /** A file: its two bitmaps, the counter that decides when it is finished, the bytes written
      so far, the bodies received by the running requests (by chunk index), and the chunks whose
      write failed. */
  datatype FileState = FileState(
    status: Status,
    flags: seq<bool>,
    done: seq<bool>,
    downloadSize: nat,
    content: seq<Byte>,
    requests: map<nat, seq<Byte>>,
    lost: set<nat>)

  datatype BufState = BufState(mem: seq<Byte>, slots: seq<Slot>)

  /** The files and buffers, and where each buffer is: with the main thread, queued for the I/O
      thread, or queued back. */
  datatype State = State(
    files: seq<FileState>,
    bufs: seq<BufState>,
    pool: seq<nat>,
    inIO: seq<nat>,
    ioDone: seq<nat>)

  datatype Chunk = Chunk(file: nat, index: nat)

  // ---------------------------------------------------------------- steps

  datatype Event =
    | Head(f: nat)
    | Loop(f: nat)
    | Receive(c: Chunk, b: nat, k: nat, data: seq<Byte>)
    | Progress(c: Chunk, b: nat, k: nat, n: nat)
    | Complete(c: Chunk, b: nat, ok: bool)
    | Transfer(j: nat)
    | Recycle
    | Save(ok: bool, junk: seq<Byte>)
    | Release

  function KeyOf(s: Slot): Chunk {
    Chunk(s.file, s.index)
  }

  function Keys(slots: seq<Slot>): set<Chunk> {
    set s | s in slots :: KeyOf(s)
  }

  function SetDownloaded(slots: seq<Slot>, c: Chunk, n: nat): (r: seq<Slot>)
    ensures |r| == |slots|
  {
    seq(|slots|, k requires 0 <= k < |slots| =>
      if KeyOf(slots[k]) == c then slots[k].(downloaded := n) else slots[k])
  }

  predicate AllDownloaded(slots: seq<Slot>) {
    forall k :: 0 <= k < |slots| ==> slots[k].downloaded == slots[k].len
  }

  predicate PoolOk(s: State) {
    forall j :: 0 <= j < |s.pool| ==> s.pool[j] < |s.bufs|
  }

  /** The first pool position whose buffer has room, or the length of the pool. */
  function FirstRoom(s: State, j: nat, len: nat): (r: nat)
    requires j <= |s.pool| && PoolOk(s)
    ensures j <= r <= |s.pool|
    ensures r < |s.pool| ==> Fits(s.bufs[s.pool[r]].slots, CAP, len)
    ensures forall k :: j <= k < r ==> !Fits(s.bufs[s.pool[k]].slots, CAP, len)
    decreases |s.pool| - j
  {
    if j == |s.pool| || Fits(s.bufs[s.pool[j]].slots, CAP, len) then j else FirstRoom(s, j + 1, len)
  }

  function PutFile(s: State, f: nat, file: FileState): State
    requires f < |s.files|
  {
    s.(files := s.files[f := file])
  }

  function PutSlots(s: State, b: nat, slots: seq<Slot>): State
    requires b < |s.bufs|
  {
    s.(bufs := s.bufs[b := s.bufs[b].(slots := slots)])
  }

  /** SetFileSize on the answer to HEAD, which tells the remote length. */
  function ExecHead(s: State, remote: seq<seq<Byte>>, f: nat): State
    requires f < |s.files| && f < |remote| && |remote[f]| > 0
  {
    var n := ChunkNum(|remote[f]|);
    PutFile(s, f, FileState(DownloadChunk, seq(n, _ => false), seq(n, _ => false), 0,
                            seq(|remote[f]|, _ => 0), map[], {}))
  }

  /** The state in which chunk i of file f has just been given to buffer b. */
  function Started(s: State, f: nat, i: nat, b: nat, len: nat): State
    requires f < |s.files| && i < |s.files[f].flags| && b < |s.bufs| && Fits(s.bufs[b].slots, CAP, len)
  {
    var file := s.files[f];
    PutSlots(PutFile(s, f, file.(flags := file.flags[i := true], requests := file.requests[i := []])),
             b, Inserted(s.bufs[b].slots, CAP, f, i, len))
  }

  /** One iteration of the DownloadChunk loop of Tick: the finish test, then at most one chunk
      flagged and given to the first buffer with room, or reverted when there is none. */
  ghost function ExecLoop(s: State, f: nat): State
    requires f < |s.files| && PoolOk(s)
  {
    var file0 := s.files[f];
    var file := if file0.downloadSize == |file0.content| then file0.(status := Finished) else file0;
    StartNext(PutFile(s, f, file), f)
  }

  /** The bytes of the next chunk, as the loop of Tick computes them. */
  function NextLen(file: FileState, i: nat): nat {
    if Second(i, |file.content|) >= First(i) then Second(i, |file.content|) - First(i) else 0
  }

  ghost function StartNext(s: State, f: nat): State
    requires f < |s.files| && PoolOk(s)
  {
    var file := s.files[f];
    var i := LeastClear(file.flags);
    if TailSet(file.flags) || |file.requests| >= PARALLEL_CHUNK_PER_FILE || i == |file.flags| then s
    else
      var len := NextLen(file, i);
      var j := FirstRoom(s, 0, len);
      if j == |s.pool| then PutFile(s, f, file.(flags := file.flags[i := true][i := false]))
      else Started(s, f, i, s.pool[j], len)
  }

  function ExecReceive(s: State, c: Chunk, b: nat, k: nat, data: seq<Byte>): State
    requires c.file < |s.files| && b < |s.bufs| && k < |s.bufs[b].slots| && c.index in s.files[c.file].requests
  {
    var file, buf := s.files[c.file], s.bufs[b];
    var body, slot := file.requests[c.index], buf.slots[k];
    var s1 := PutFile(s, c.file, file.(requests := file.requests[c.index := body + data]));
    s1.(bufs := s1.bufs[b := buf.(mem := Appended(buf.mem, slot.cursor, slot.len, |body|, data))])
  }

  function ExecComplete(s: State, c: Chunk, b: nat, ok: bool): State
    requires c.file < |s.files| && b < |s.bufs| && c.index in s.files[c.file].requests
    requires c.index < |s.files[c.file].flags|
  {
    var file := s.files[c.file];
    var n, requests := |file.requests[c.index]|, file.requests - {c.index};
    if Accepts(file, c.index, ok) then
      PutSlots(PutFile(s, c.file, file.(requests := requests)), b, SetDownloaded(s.bufs[b].slots, c, n))
    else
      PutSlots(PutFile(s, c.file, file.(requests := requests, flags := file.flags[c.index := false])),
               b, Removed(s.bufs[b].slots, c.file, c.index))
  }

  /** The completion callback keeps a chunk whose response has exactly the chunk's size. */
  predicate Accepts(file: FileState, i: nat, ok: bool)
    requires i in file.requests
  {
    ok && First(i) + |file.requests[i]| == Second(i, |file.content|)
  }

  /** As many bytes have arrived as the chunk has. */
  predicate RightSize(file: FileState, i: nat)
    requires i in file.requests
  {
    |file.requests[i]| == Second(i, |file.content|) - First(i)
  }

  /** TickIO on the next chunk of the buffer it works on: SaveDate, then CompleteChunk.  A chunk
      whose write fails may leave anything in its range; it stays flagged, is in no buffer once
      the buffer is recycled, and counts as lost from here on. */
  function ExecSave(s: State, ok: bool, junk: seq<Byte>): State
    requires s.inIO != [] && s.inIO[0] < |s.bufs| && s.bufs[s.inIO[0]].slots != []
    requires var slot := s.bufs[s.inIO[0]].slots[0];
      slot.file < |s.files| && slot.index < |s.files[slot.file].done|
      && slot.cursor + slot.len <= |s.bufs[s.inIO[0]].mem|
  {
    var b := s.inIO[0];
    var slot := s.bufs[b].slots[0];
    var file, i := s.files[slot.file], slot.index;
    var s1 := PutSlots(s, b, s.bufs[b].slots[1..]);
    if ok then
      var data := s.bufs[b].mem[slot.cursor..slot.cursor + slot.len];
      PutFile(s1, slot.file, file.(content := Overwrite(file.content, First(i), data),
                                   done := file.done[i := true], downloadSize := file.downloadSize + slot.len))
    else
      PutFile(s1, slot.file, file.(content := Overwrite(file.content, First(i), junk), lost := file.lost + {i}))
  }

  ghost predicate Enabled(s: State, remote: seq<seq<Byte>>, e: Event) {
    match e
    case Head(f) => f < |s.files| && f < |remote| && |remote[f]| > 0 && s.files[f].status == Waiting
    case Loop(f) =>
      f < |s.files| && s.files[f].status == DownloadChunk && PoolOk(s)
    case Receive(c, b, k, data) =>
      && Running(s, c) && SlotIs(s, b, k, c)
      // once the progress callback has reported the full size, no more bytes arrive
      && s.bufs[b].slots[k].downloaded != s.bufs[b].slots[k].len
    case Progress(c, b, k, n) =>
      // reports come in order and never ahead of the bytes
      && Running(s, c) && SlotIs(s, b, k, c)
      && s.bufs[b].slots[k].downloaded <= n <= |s.files[c.file].requests[c.index]|
      // a request reported as full carries exactly the requested bytes
      && (n == s.bufs[b].slots[k].len ==> Exact(s, remote, c))
    case Complete(c, b, ok) =>
      && Running(s, c) && b < |s.bufs|
      && (c in Keys(s.bufs[b].slots) || s.files[c.file].done[c.index] || c.index in s.files[c.file].lost)
      // a successful response of the right size carries exactly the requested bytes
      && (ok && RightSize(s.files[c.file], c.index) ==> Exact(s, remote, c))
      // a request reported as full completes successfully
      && ((forall k :: 0 <= k < |s.bufs[b].slots| && KeyOf(s.bufs[b].slots[k]) == c ==>
             s.bufs[b].slots[k].downloaded == s.bufs[b].slots[k].len) ==> ok && RightSize(s.files[c.file], c.index))
    case Transfer(j) =>
      && j < |s.pool| && s.pool[j] < |s.bufs|
      && s.bufs[s.pool[j]].slots != [] && AllDownloaded(s.bufs[s.pool[j]].slots)
    case Recycle => s.ioDone != [] && s.ioDone[0] < |s.bufs|
    case Save(ok, junk) =>
      && s.inIO != [] && s.inIO[0] < |s.bufs| && s.bufs[s.inIO[0]].slots != []
      && var slot := s.bufs[s.inIO[0]].slots[0];
      && slot.file < |s.files| && slot.index < |s.files[slot.file].done|
      && slot.cursor + slot.len <= |s.bufs[s.inIO[0]].mem| && |junk| == slot.len
    case Release => s.inIO != [] && s.inIO[0] < |s.bufs| && s.bufs[s.inIO[0]].slots == []
  }

  /** The chunk's request is running. */
  predicate Running(s: State, c: Chunk) {
    && c.file < |s.files| && c.index in s.files[c.file].requests
    && c.index < |s.files[c.file].flags| && c.index < |s.files[c.file].done|
  }

  predicate SlotIs(s: State, b: nat, k: nat, c: Chunk) {
    b < |s.bufs| && k < |s.bufs[b].slots| && KeyOf(s.bufs[b].slots[k]) == c
  }

  /** The response's bytes so far are exactly the requested range. */
  ghost predicate Exact(s: State, remote: seq<seq<Byte>>, c: Chunk)
    requires Running(s, c)
  {
    c.file < |remote| && IsRange(remote[c.file], c.index, s.files[c.file].requests[c.index])
  }

  ghost predicate IsRange(r: seq<Byte>, i: nat, data: seq<Byte>) {
    First(i) <= Second(i, |r|) && data == r[First(i)..Second(i, |r|)]
  }

  ghost function Exec(s: State, remote: seq<seq<Byte>>, e: Event): State
    requires Enabled(s, remote, e)
  {
    match e
    case Head(f) => ExecHead(s, remote, f)
    case Loop(f) => ExecLoop(s, f)
    case Receive(c, b, k, data) => ExecReceive(s, c, b, k, data)
    case Progress(c, b, k, n) => PutSlots(s, b, SetDownloaded(s.bufs[b].slots, c, n))
    case Complete(c, b, ok) => ExecComplete(s, c, b, ok)
    case Transfer(j) => s.(inIO := s.inIO + [s.pool[j]], pool := s.pool[..j] + s.pool[j + 1..])
    case Recycle => PutSlots(s, s.ioDone[0], []).(ioDone := s.ioDone[1..], pool := s.pool + [s.ioDone[0]])
    case Save(ok, junk) => ExecSave(s, ok, junk)
    case Release => s.(inIO := s.inIO[1..], ioDone := s.ioDone + [s.inIO[0]])
  }

  // ---------------------------------------------------------------- runs

  /** Four empty buffers with the main thread, and files that wait for their HEAD answer. */
  ghost predicate Initial(s: State, remote: seq<seq<Byte>>) {
    && |s.files| == |remote|
    && (forall f :: 0 <= f < |s.files| ==> s.files[f] == FileState(Waiting, [], [], 0, [], map[], {}))
    && |s.bufs| == BUF_NUM
    && (forall b :: 0 <= b < BUF_NUM ==> |s.bufs[b].mem| == CAP && s.bufs[b].slots == [])
    && s.pool == [0, 1, 2, 3] && s.inIO == [] && s.ioDone == []
  }

  /** The states a sequence of events passes through. */
  ghost predicate IsRun(states: seq<State>, remote: seq<seq<Byte>>, es: seq<Event>) {
    && |states| == |es| + 1 && Initial(states[0], remote)
    && forall i :: 0 <= i < |es| ==> Steps(states[i], remote, es[i], states[i + 1])
  }

  ghost predicate Steps(s: State, remote: seq<seq<Byte>>, e: Event, s': State) {
    Enabled(s, remote, e) && s' == Exec(s, remote, e)
  }

  // ---------------------------------------------------------------- sizes

  /** The bytes of the complete chunks. */
  function SumDone(done: seq<bool>, size: nat): int {
    if done == [] then 0
    else SumDone(done[..|done| - 1], size)
         + (if done[|done| - 1] then Second(|done| - 1, size) - First(|done| - 1) else 0)
  }

  lemma {:induction false} SumDoneSet(done: seq<bool>, size: nat, i: nat)
    requires i < |done| && !done[i]
    ensures SumDone(done[i := true], size) == SumDone(done, size) + (Second(i, size) - First(i))
  {
    var n := |done| - 1;
    if i == n {
      assert done[i := true][..n] == done[..n];
    } else {
      SumDoneSet(done[..n], size, i);
      assert done[i := true][..n] == done[..n][i := true];
    }
  }

  lemma {:induction false} SumDoneBound(done: seq<bool>, size: nat)
    requires size > 0 && |done| <= ChunkNum(size)
    ensures 0 <= SumDone(done, size) <= if done == [] then 0 else Second(|done| - 1, size)
    ensures done != [] ==> (SumDone(done, size) == Second(|done| - 1, size) <==> AllSet(done))
  {
    if done != [] {
      SumDoneBound(done[..|done| - 1], size);
      assert AllSet(done) <==> AllSet(done[..|done| - 1]) && done[|done| - 1];
    }
  }

  /** The counter equals the file size exactly when every chunk is complete. */
  lemma FullIffAllDone(done: seq<bool>, size: nat)
    requires size > 0 && |done| == ChunkNum(size)
    ensures SumDone(done, size) == size <==> AllSet(done)
  {
    SumDoneBound(done, size);
    assert Second(ChunkNum(size) - 1, size) == size;
  }

  // ---------------------------------------------------------------- the invariant

  /** A chunk that some buffer has to hold: flagged, not complete, and its write not failed. */
  predicate Owed(s: State, c: Chunk) {
    c.file < |s.files| && OwedBy(s.files[c.file], c.index)
  }

  predicate OwedBy(file: FileState, i: nat) {
    i < |file.flags| && file.flags[i] && !(i < |file.done| && file.done[i]) && i !in file.lost
  }

  ghost predicate HeldIn(ks: seq<set<Chunk>>, c: Chunk) {
    exists b :: 0 <= b < |ks| && c in ks[b]
  }

  /** The owed chunks are exactly the held ones, each in one buffer. */
  ghost predicate Partitioned(ks: seq<set<Chunk>>, owed: Chunk -> bool) {
    && (forall b, d, c :: 0 <= b < |ks| && 0 <= d < |ks| && c in ks[b] && c in ks[d] ==> b == d)
    && (forall c :: owed(c) <==> HeldIn(ks, c))
  }

  function KeySets(s: State): seq<set<Chunk>> {
    seq(|s.bufs|, b requires 0 <= b < |s.bufs| => Keys(s.bufs[b].slots))
  }

  /** Bookkeeping of one file, and the promise about what it has written. */
  ghost predicate FileOk(file: FileState, r: seq<Byte>) {
    if file.status == Waiting then file == FileState(Waiting, [], [], 0, [], map[], {})
    else
      && |r| > 0 && |file.content| == |r| && |file.flags| == |file.done| == ChunkNum(|r|)
      && (forall i :: 0 <= i < |file.flags| && file.done[i] ==> file.flags[i])
      && (forall i :: i in file.lost ==> i < |file.flags| && file.flags[i] && !file.done[i])
      && (forall i :: i in file.requests ==> i < |file.flags| && file.flags[i])
      && file.downloadSize == SumDone(file.done, |r|)
      && (forall i :: 0 <= i < |file.done| && file.done[i] ==> Written(file.content, r, i))
      && (file.status == Finished ==> file.downloadSize == |r|)
  }

  ghost predicate Written(content: seq<Byte>, r: seq<Byte>, i: nat) {
    |content| == |r| && forall p :: First(i) <= p < Second(i, |r|) ==> content[p] == r[p]
  }

  /** A slot belongs to an owed chunk, has its size, and holds what its response delivered so far;
      once reported full it holds the chunk's range of the remote file. */
  ghost predicate SlotOk(s: State, remote: seq<seq<Byte>>, mem: seq<Byte>, slot: Slot) {
    && slot.file < |s.files| && slot.file < |remote| && s.files[slot.file].status != Waiting
    && |remote[slot.file]| > 0 && slot.index < ChunkNum(|remote[slot.file]|)
    && slot.len == Second(slot.index, |remote[slot.file]|) - First(slot.index)
    && slot.cursor + slot.len <= |mem|
    && SlotBytes(s.files[slot.file], remote[slot.file], mem, slot)
  }

  ghost predicate SlotBytes(file: FileState, r: seq<Byte>, mem: seq<Byte>, slot: Slot)
    requires slot.cursor + slot.len <= |mem|
  {
    var here := mem[slot.cursor..slot.cursor + slot.len];
    && (slot.index in file.requests ==> Prefixes(file.requests[slot.index], here))
    && (slot.downloaded == slot.len ==> IsRange(r, slot.index, here))
    && (slot.downloaded == slot.len && slot.index in file.requests ==> |file.requests[slot.index]| == slot.len)
    && (slot.index !in file.requests ==> slot.downloaded == slot.len)
  }

  /** The response's bytes, as far as they fit, start the region. */
  ghost predicate Prefixes(body: seq<Byte>, here: seq<Byte>) {
    forall j :: 0 <= j < |body| && j < |here| ==> here[j] == body[j]
  }

  ghost predicate NoDup(slots: seq<Slot>) {
    forall j, k :: 0 <= j < k < |slots| ==> KeyOf(slots[j]) != KeyOf(slots[k])
  }

  ghost predicate BufOk(s: State, remote: seq<seq<Byte>>, buf: BufState) {
    && |buf.mem| == CAP && Packed(buf.slots, CAP) && NoDup(buf.slots)
    && (forall k :: 0 <= k < |buf.slots| ==> SlotOk(s, remote, buf.mem, buf.slots[k]))
  }

  /** Each of the buffers is in exactly one place. */
  ghost predicate PlacesOk(s: State) {
    && |s.bufs| == BUF_NUM
    && multiset(s.pool) + multiset(s.inIO) + multiset(s.ioDone) == multiset{0, 1, 2, 3}
    && (forall b :: b in s.inIO && b < |s.bufs| ==> AllDownloaded(s.bufs[b].slots))
    && (forall b :: b in s.ioDone && b < |s.bufs| ==> s.bufs[b].slots == [])
  }

  ghost predicate FilesOk(s: State, remote: seq<seq<Byte>>) {
    |s.files| == |remote| && forall f :: 0 <= f < |s.files| ==> FileOk(s.files[f], remote[f])
  }

  ghost predicate BufsOk(s: State, remote: seq<seq<Byte>>) {
    forall b :: 0 <= b < |s.bufs| ==> BufOk(s, remote, s.bufs[b])
  }

  ghost predicate Inv(s: State, remote: seq<seq<Byte>>) {
    FilesOk(s, remote) && BufsOk(s, remote) && PlacesOk(s) && Partitioned(KeySets(s), c => Owed(s, c))
  }

  // ---------------------------------------------------------------- the partition

  lemma PartitionSame(ks: seq<set<Chunk>>, owed: Chunk -> bool, owed': Chunk -> bool)
    requires Partitioned(ks, owed) && forall c :: owed'(c) == owed(c)
    ensures Partitioned(ks, owed')
  {}

  lemma PartitionAdd(ks: seq<set<Chunk>>, owed: Chunk -> bool,
                     ks': seq<set<Chunk>>, owed': Chunk -> bool, b: nat, c: Chunk)
    requires Partitioned(ks, owed) && b < |ks| && ks' == ks[b := ks[b] + {c}]
    requires !owed(c) && owed'(c) && forall d :: d != c ==> owed'(d) == owed(d)
    ensures Partitioned(ks', owed')
  {
    assert !HeldIn(ks, c);
    forall d
      ensures owed'(d) <==> HeldIn(ks', d)
    {
      if d == c {
        assert c in ks'[b];
      } else if HeldIn(ks, d) {
        var a :| 0 <= a < |ks| && d in ks[a];
        assert d in ks'[a];
      }
    }
  }

  lemma PartitionDrop(ks: seq<set<Chunk>>, owed: Chunk -> bool,
                     ks': seq<set<Chunk>>, owed': Chunk -> bool, b: nat, c: Chunk)
    requires Partitioned(ks, owed) && b < |ks| && ks' == ks[b := ks[b] - {c}]
    requires c in ks[b] && !owed'(c) && forall d :: d != c ==> owed'(d) == owed(d)
    ensures Partitioned(ks', owed')
  {
    forall d
      ensures owed'(d) <==> HeldIn(ks', d)
    {
      if d == c {
        assert forall a :: 0 <= a < |ks| && c in ks[a] ==> a == b;
      } else if HeldIn(ks, d) {
        var a :| 0 <= a < |ks| && d in ks[a];
        assert d in ks'[a];
      }
    }
  }

  lemma KeysOfInserted(slots: seq<Slot>, f: nat, i: nat, len: nat)
    requires NoDup(slots) && Fits(slots, CAP, len) && Chunk(f, i) !in Keys(slots)
    ensures var r := Inserted(slots, CAP, f, i, len);
      NoDup(r) && Keys(r) == Keys(slots) + {Chunk(f, i)}
  {
    var r := Inserted(slots, CAP, f, i, len);
    var at := Position(slots, CAP, len);
    assert KeyOf(r[at]) == Chunk(f, i);
    forall c | c in Keys(slots)
      ensures c in Keys(r)
    {
      var k :| 0 <= k < |slots| && KeyOf(slots[k]) == c;
      assert r[if k < at then k else k + 1] == slots[k];
    }
    forall k | 0 <= k < |r| && k != at
      ensures KeyOf(r[k]) in Keys(slots)
    {
      assert r[k] == slots[if k < at then k else k - 1];
    }
  }

  lemma {:induction false} KeysOfRemoved(slots: seq<Slot>, f: nat, i: nat)
    requires NoDup(slots)
    ensures var r := Removed(slots, f, i);
      && NoDup(r) && Keys(r) == Keys(slots) - {Chunk(f, i)}
      && forall k :: 0 <= k < |r| ==> r[k] in slots
  {
    if slots != [] {
      var rest := slots[1..];
      assert Keys(slots) == {KeyOf(slots[0])} + Keys(rest) by {
        assert slots == [slots[0]] + rest;
      }
      assert KeyOf(slots[0]) !in Keys(rest);
      if !Names(slots[0], f, i) {
        KeysOfRemoved(rest, f, i);
        var r := Removed(rest, f, i);
        assert Keys([slots[0]] + r) == {KeyOf(slots[0])} + Keys(r);
        forall k | 0 <= k < |r|
          ensures KeyOf(r[k]) != KeyOf(slots[0])
        {
          assert KeyOf(r[k]) in Keys(r);
        }
      }
    }
  }

  lemma KeysOfSetDownloaded(slots: seq<Slot>, c: Chunk, n: nat)
    ensures Keys(SetDownloaded(slots, c, n)) == Keys(slots)
  {
    var r := SetDownloaded(slots, c, n);
    forall k | 0 <= k < |slots|
      ensures KeyOf(r[k]) == KeyOf(slots[k]) && KeyOf(slots[k]) in Keys(r) && KeyOf(r[k]) in Keys(slots)
    {
      assert r[k] in r && slots[k] in slots;
    }
  }

  lemma KeysOfTail(slots: seq<Slot>)
    requires slots != [] && NoDup(slots)
    ensures NoDup(slots[1..]) && Keys(slots[1..]) == Keys(slots) - {KeyOf(slots[0])}
  {
    assert slots == [slots[0]] + slots[1..];
    forall s | s in slots[1..]
      ensures KeyOf(s) != KeyOf(slots[0])
    {
      var k :| 0 <= k < |slots[1..]| && slots[1..][k] == s;
      assert slots[k + 1] == s;
    }
  }

  // ---------------------------------------------------------------- one step

  /** A slot stays good while its file runs on, its response is not touched and its bytes stay. */
  lemma SlotKept(s: State, s': State, remote: seq<seq<Byte>>, mem: seq<Byte>, mem': seq<Byte>, slot: Slot)
    requires SlotOk(s, remote, mem, slot) && |s'.files| == |s.files| && |mem'| == |mem|
    requires s'.files[slot.file].status != Waiting
    requires SameRequest(s.files[slot.file], s'.files[slot.file], slot.index)
    requires mem'[slot.cursor..slot.cursor + slot.len] == mem[slot.cursor..slot.cursor + slot.len]
    ensures SlotOk(s', remote, mem', slot)
  {}

  predicate SameRequest(file: FileState, file': FileState, i: nat) {
    (i in file'.requests <==> i in file.requests) && (i in file.requests ==> file'.requests[i] == file.requests[i])
  }

  /** Buffers stay good when only the files change, and no request of a held chunk is touched. */
  lemma BufsKept(s: State, s': State, remote: seq<seq<Byte>>)
    requires BufsOk(s, remote) && s'.bufs == s.bufs && |s'.files| == |s.files|
    requires forall b, k :: 0 <= b < |s.bufs| && 0 <= k < |s.bufs[b].slots| ==>
      var slot := s.bufs[b].slots[k];
      slot.file < |s.files| && (s.files[slot.file].status != Waiting ==> s'.files[slot.file].status != Waiting)
      && SameRequest(s.files[slot.file], s'.files[slot.file], slot.index)
    ensures BufsOk(s', remote)
  {
    forall b | 0 <= b < |s'.bufs|
      ensures BufOk(s', remote, s'.bufs[b])
    {
      var buf := s.bufs[b];
      assert BufOk(s, remote, buf);
      forall k | 0 <= k < |buf.slots|
        ensures SlotOk(s', remote, buf.mem, buf.slots[k])
      {
        SlotKept(s, s', remote, buf.mem, buf.mem, buf.slots[k]);
      }
    }
  }

  lemma {:induction false} SumDoneNone(n: nat, size: nat)
    ensures SumDone(seq(n, _ => false), size) == 0
  {
    if n > 0 {
      SumDoneNone(n - 1, size);
      assert seq(n, _ => false)[..n - 1] == seq(n - 1, _ => false);
    }
  }

  lemma HeadKeepsInv(s: State, remote: seq<seq<Byte>>, f: nat)
    requires Inv(s, remote) && Enabled(s, remote, Head(f))
    ensures Inv(ExecHead(s, remote, f), remote)
  {
    var s' := ExecHead(s, remote, f);
    SumDoneNone(ChunkNum(|remote[f]|), |remote[f]|);
    assert FileOk(s.files[f], remote[f]);
    assert FileOk(s'.files[f], remote[f]);
    forall b, k | 0 <= b < |s.bufs| && 0 <= k < |s.bufs[b].slots|
      ensures var slot := s.bufs[b].slots[k]; slot.file != f && slot.file < |s.files|
    {
      assert BufOk(s, remote, s.bufs[b]) && SlotOk(s, remote, s.bufs[b].mem, s.bufs[b].slots[k]);
    }
    BufsKept(s, s', remote);
    assert KeySets(s') == KeySets(s);
    PartitionSame(KeySets(s), c => Owed(s, c), c => Owed(s', c));
  }

  lemma TransferKeepsInv(s: State, remote: seq<seq<Byte>>, j: nat)
    requires Inv(s, remote) && Enabled(s, remote, Transfer(j))
    ensures Inv(Exec(s, remote, Transfer(j)), remote)
  {
    var s' := Exec(s, remote, Transfer(j));
    TransferKeepsPlaces(s, s', j);
    BufsKept(s, s', remote);
    assert KeySets(s') == KeySets(s);
    PartitionSame(KeySets(s), c => Owed(s, c), c => Owed(s', c));
  }

  lemma TransferKeepsPlaces(s: State, s': State, j: nat)
    requires PlacesOk(s) && j < |s.pool| && s.pool[j] < |s.bufs| && AllDownloaded(s.bufs[s.pool[j]].slots)
    requires s' == s.(inIO := s.inIO + [s.pool[j]], pool := s.pool[..j] + s.pool[j + 1..])
    ensures PlacesOk(s')
  {
    assert s.pool == s.pool[..j] + [s.pool[j]] + s.pool[j + 1..];
  }

  lemma RecycleKeepsPlaces(s: State, s': State)
    requires PlacesOk(s) && s.ioDone != [] && s.ioDone[0] < |s.bufs|
    requires s' == s.(ioDone := s.ioDone[1..], pool := s.pool + [s.ioDone[0]])
    ensures PlacesOk(s')
  {
    assert s.ioDone == [s.ioDone[0]] + s.ioDone[1..];
  }

  lemma RecycleClearsNothing(s: State, remote: seq<seq<Byte>>)
    requires PlacesOk(s) && Enabled(s, remote, Recycle)
    ensures Exec(s, remote, Recycle) == s.(ioDone := s.ioDone[1..], pool := s.pool + [s.ioDone[0]])
  {
    assert s.ioDone[0] in s.ioDone;
    assert Exec(s, remote, Recycle).bufs == s.bufs;
  }

  lemma RecycleKeepsInv(s: State, remote: seq<seq<Byte>>)
    requires Inv(s, remote) && Enabled(s, remote, Recycle)
    ensures Inv(Exec(s, remote, Recycle), remote)
  {
    var s' := Exec(s, remote, Recycle);
    RecycleClearsNothing(s, remote);
    RecycleKeepsPlaces(s, s');
    BufsKept(s, s', remote);
    assert KeySets(s') == KeySets(s);
    PartitionSame(KeySets(s), c => Owed(s, c), c => Owed(s', c));
  }

  lemma ReleaseKeepsInv(s: State, remote: seq<seq<Byte>>)
    requires Inv(s, remote) && Enabled(s, remote, Release)
    ensures Inv(Exec(s, remote, Release), remote)
  {
    var s' := Exec(s, remote, Release);
    assert s.inIO == [s.inIO[0]] + s.inIO[1..];
    BufsKept(s, s', remote);
    assert KeySets(s') == KeySets(s);
    PartitionSame(KeySets(s), c => Owed(s, c), c => Owed(s', c));
  }

  /** A held chunk is held nowhere else. */
  lemma HeldOnce(s: State, remote: seq<seq<Byte>>, b: nat, k: nat, a: nat, j: nat)
    requires Inv(s, remote) && b < |s.bufs| && k < |s.bufs[b].slots| && a < |s.bufs| && j < |s.bufs[a].slots|
    requires KeyOf(s.bufs[b].slots[k]) == KeyOf(s.bufs[a].slots[j])
    ensures a == b && j == k
  {
    var ks, c := KeySets(s), KeyOf(s.bufs[b].slots[k]);
    assert c in ks[b] && c in ks[a];
    assert BufOk(s, remote, s.bufs[b]);
  }

  lemma HeldIsOwed(s: State, remote: seq<seq<Byte>>, b: nat, k: nat)
    requires Inv(s, remote) && b < |s.bufs| && k < |s.bufs[b].slots|
    ensures Owed(s, KeyOf(s.bufs[b].slots[k])) && SlotOk(s, remote, s.bufs[b].mem, s.bufs[b].slots[k])
  {
    var c := KeyOf(s.bufs[b].slots[k]);
    assert c in KeySets(s)[b];
    assert HeldIn(KeySets(s), c);
    assert (x => Owed(s, x))(c);
    assert BufOk(s, remote, s.bufs[b]);
  }

  /** No buffer holds a chunk that is not owed. */
  lemma NotOwedNotHeld(s: State, remote: seq<seq<Byte>>, c: Chunk, b: nat)
    requires Inv(s, remote) && !Owed(s, c) && b < |s.bufs|
    ensures c !in Keys(s.bufs[b].slots)
  {
    var ks := KeySets(s);
    assert (x => Owed(s, x))(c) == Owed(s, c);
    assert ks[b] == Keys(s.bufs[b].slots);
    HeldInAt(ks, b, c);
  }

  lemma HeldInAt(ks: seq<set<Chunk>>, b: nat, c: Chunk)
    requires b < |ks|
    ensures c in ks[b] ==> HeldIn(ks, c)
  {}

  lemma StartKeepsInv(s: State, remote: seq<seq<Byte>>, f: nat, i: nat, b: nat, len: nat)
    requires Inv(s, remote) && f < |s.files| && s.files[f].status != Waiting
    requires i < |s.files[f].flags| && !s.files[f].flags[i]
    requires b in s.pool && b < |s.bufs| && len == Second(i, |remote[f]|) - First(i) && Fits(s.bufs[b].slots, CAP, len)
    ensures Inv(Started(s, f, i, b, len), remote)
  {
    var s', file, slots := Started(s, f, i, b, len), s.files[f], s.bufs[b].slots;
    var c := Chunk(f, i);
    assert FileOk(file, remote[f]);
    NotOwedNotHeld(s, remote, c, b);
    KeysOfInserted(slots, f, i, len);
    StartKeepsFiles(s, remote, f, i, b, len);
    StartKeepsBufs(s, remote, f, i, b, len);
    assert KeySets(s') == KeySets(s)[b := KeySets(s)[b] + {c}];
    PartitionAdd(KeySets(s), d => Owed(s, d), KeySets(s'), d => Owed(s', d), b, c);
    assert b !in s.inIO && b !in s.ioDone by {
      assert (multiset(s.pool) + multiset(s.inIO) + multiset(s.ioDone))[b] == multiset{0, 1, 2, 3}[b] <= 1;
    }
  }

  lemma StartKeepsFiles(s: State, remote: seq<seq<Byte>>, f: nat, i: nat, b: nat, len: nat)
    requires FilesOk(s, remote) && f < |s.files| && s.files[f].status != Waiting
    requires i < |s.files[f].flags| && !s.files[f].flags[i]
    requires b < |s.bufs| && Fits(s.bufs[b].slots, CAP, len)
    ensures FilesOk(Started(s, f, i, b, len), remote)
  {
    assert FileOk(s.files[f], remote[f]);
    assert FileOk(Started(s, f, i, b, len).files[f], remote[f]);
  }

  /** The chunks already in buffers do not notice. */
  lemma StartKeepsSlot(s: State, remote: seq<seq<Byte>>, f: nat, i: nat, b: nat, len: nat, a: nat, slot: Slot)
    requires Inv(s, remote) && f < |s.files| && s.files[f].status != Waiting
    requires i < |s.files[f].flags| && !s.files[f].flags[i] && b < |s.bufs| && Fits(s.bufs[b].slots, CAP, len)
    requires a < |s.bufs| && slot in s.bufs[a].slots
    ensures SlotOk(Started(s, f, i, b, len), remote, s.bufs[a].mem, slot)
  {
    var k :| 0 <= k < |s.bufs[a].slots| && s.bufs[a].slots[k] == slot;
    HeldIsOwed(s, remote, a, k);
    SlotKept(s, Started(s, f, i, b, len), remote, s.bufs[a].mem, s.bufs[a].mem, slot);
  }

  lemma StartedSlot(s: State, remote: seq<seq<Byte>>, f: nat, i: nat, b: nat, len: nat)
    requires Inv(s, remote) && f < |s.files| && s.files[f].status != Waiting
    requires i < |s.files[f].flags| && !s.files[f].flags[i] && b < |s.bufs| && Fits(s.bufs[b].slots, CAP, len)
    requires len == Second(i, |remote[f]|) - First(i)
    ensures var at := EndBefore(s.bufs[b].slots, Position(s.bufs[b].slots, CAP, len));
      SlotOk(Started(s, f, i, b, len), remote, s.bufs[b].mem, Slot(f, i, at, len, 0))
  {
    assert FileOk(s.files[f], remote[f]) && BufOk(s, remote, s.bufs[b]);
    InsertKeepsPacked(s.bufs[b].slots, CAP, f, i, len);
    var at := Position(s.bufs[b].slots, CAP, len);
    assert Inserted(s.bufs[b].slots, CAP, f, i, len)[at] == Slot(f, i, EndBefore(s.bufs[b].slots, at), len, 0);
  }

  lemma InsertedAre(slots: seq<Slot>, f: nat, i: nat, len: nat, slot: Slot)
    requires Fits(slots, CAP, len) && slot in Inserted(slots, CAP, f, i, len)
    ensures slot in slots || slot == Slot(f, i, EndBefore(slots, Position(slots, CAP, len)), len, 0)
  {}

  /** The buffer that takes the chunk. */
  lemma StartKeepsOwnBuf(s: State, remote: seq<seq<Byte>>, f: nat, i: nat, b: nat, len: nat)
    requires Inv(s, remote) && f < |s.files| && s.files[f].status != Waiting
    requires i < |s.files[f].flags| && !s.files[f].flags[i] && b < |s.bufs| && Fits(s.bufs[b].slots, CAP, len)
    requires len == Second(i, |remote[f]|) - First(i) && NoDup(Inserted(s.bufs[b].slots, CAP, f, i, len))
    ensures BufOk(Started(s, f, i, b, len), remote, Started(s, f, i, b, len).bufs[b])
  {
    var s', slots := Started(s, f, i, b, len), s.bufs[b].slots;
    assert BufOk(s, remote, s.bufs[b]);
    InsertKeepsPacked(slots, CAP, f, i, len);
    StartedSlot(s, remote, f, i, b, len);
    forall k | 0 <= k < |s'.bufs[b].slots|
      ensures SlotOk(s', remote, s.bufs[b].mem, s'.bufs[b].slots[k])
    {
      InsertedAre(slots, f, i, len, s'.bufs[b].slots[k]);
      if s'.bufs[b].slots[k] in slots {
        StartKeepsSlot(s, remote, f, i, b, len, b, s'.bufs[b].slots[k]);
      }
    }
  }

  lemma StartKeepsBufs(s: State, remote: seq<seq<Byte>>, f: nat, i: nat, b: nat, len: nat)
    requires Inv(s, remote) && f < |s.files| && s.files[f].status != Waiting
    requires i < |s.files[f].flags| && !s.files[f].flags[i] && b < |s.bufs| && Fits(s.bufs[b].slots, CAP, len)
    requires len == Second(i, |remote[f]|) - First(i) && NoDup(Inserted(s.bufs[b].slots, CAP, f, i, len))
    ensures BufsOk(Started(s, f, i, b, len), remote)
  {
    var s' := Started(s, f, i, b, len);
    StartKeepsOwnBuf(s, remote, f, i, b, len);
    forall a | 0 <= a < |s.bufs| && a != b
      ensures BufOk(s', remote, s.bufs[a])
    {
      assert BufOk(s, remote, s.bufs[a]);
      forall k | 0 <= k < |s.bufs[a].slots| {
        StartKeepsSlot(s, remote, f, i, b, len, a, s.bufs[a].slots[k]);
      }
    }
  }

  /** Flagging a clear chunk and reverting it is no step at all. */
  lemma RevertUndoesFlag(s: State, f: nat, i: nat)
    requires f < |s.files| && i < |s.files[f].flags| && !s.files[f].flags[i]
    ensures PutFile(s, f, s.files[f].(flags := s.files[f].flags[i := true][i := false])) == s
  {
    assert s.files[f].flags[i := true][i := false] == s.files[f].flags;
  }

  /** An iteration that starts nothing changes nothing; otherwise it starts the least clear chunk
      in the first buffer with room. */
  lemma StartNextCases(s: State, f: nat)
    requires f < |s.files| && PoolOk(s)
    ensures var i := LeastClear(s.files[f].flags);
      var len := NextLen(s.files[f], i);
      var j := FirstRoom(s, 0, len);
      StartNext(s, f) == s ||
      (i < |s.files[f].flags| && j < |s.pool| && StartNext(s, f) == Started(s, f, i, s.pool[j], len))
  {
    var i := LeastClear(s.files[f].flags);
    if i < |s.files[f].flags| {
      RevertUndoesFlag(s, f, i);
    }
  }

  lemma LoopStarts(s: State, f: nat, i: nat, j: nat)
    requires f < |s.files| && PoolOk(s) && s.files[f].downloadSize != |s.files[f].content|
    requires i == LeastClear(s.files[f].flags) < |s.files[f].flags| && !TailSet(s.files[f].flags)
    requires |s.files[f].requests| < PARALLEL_CHUNK_PER_FILE
    requires j == FirstRoom(s, 0, NextLen(s.files[f], i)) < |s.pool|
    ensures ExecLoop(s, f) == Started(s, f, i, s.pool[j], NextLen(s.files[f], i))
  {
    assert PutFile(s, f, s.files[f]) == s;
  }

  lemma LoopFinishes(s: State, f: nat)
    requires f < |s.files| && PoolOk(s) && s.files[f].downloadSize == |s.files[f].content|
    ensures |ExecLoop(s, f).files| == |s.files| && ExecLoop(s, f).files[f].status == Finished
  {
    StartNextCases(PutFile(s, f, s.files[f].(status := Finished)), f);
  }

  /** A chunk that the loop may start has its size. */
  lemma NextLenIsSize(s: State, remote: seq<seq<Byte>>, f: nat, i: nat)
    requires FilesOk(s, remote) && f < |s.files| && s.files[f].status != Waiting && i < |s.files[f].flags|
    ensures NextLen(s.files[f], i) == Second(i, |remote[f]|) - First(i)
  {
    assert FileOk(s.files[f], remote[f]);
  }

  lemma StartNextKeepsInv(s: State, remote: seq<seq<Byte>>, f: nat)
    requires Inv(s, remote) && f < |s.files| && s.files[f].status != Waiting && PoolOk(s)
    ensures Inv(StartNext(s, f), remote)
  {
    StartNextCases(s, f);
    if StartNext(s, f) != s {
      var i := LeastClear(s.files[f].flags);
      var len := NextLen(s.files[f], i);
      var j := FirstRoom(s, 0, len);
      NextLenIsSize(s, remote, f, i);
      assert s.pool[j] in s.pool;
      StartKeepsInv(s, remote, f, i, s.pool[j], len);
    }
  }

  lemma LoopKeepsInv(s: State, remote: seq<seq<Byte>>, f: nat)
    requires Inv(s, remote) && Enabled(s, remote, Loop(f))
    ensures Inv(ExecLoop(s, f), remote)
  {
    var file0 := s.files[f];
    var file := if file0.downloadSize == |file0.content| then file0.(status := Finished) else file0;
    FinishKeepsInv(s, remote, f, file);
    StartNextKeepsInv(PutFile(s, f, file), remote, f);
  }

  lemma FinishKeepsInv(s: State, remote: seq<seq<Byte>>, f: nat, file: FileState)
    requires Inv(s, remote) && f < |s.files| && s.files[f].status == DownloadChunk
    requires file == s.files[f] || (file == s.files[f].(status := Finished) && file.downloadSize == |file.content|)
    ensures Inv(PutFile(s, f, file), remote)
  {
    var s' := PutFile(s, f, file);
    assert FileOk(s.files[f], remote[f]) && FileOk(file, remote[f]);
    forall b, k | 0 <= b < |s.bufs| && 0 <= k < |s.bufs[b].slots|
      ensures s.bufs[b].slots[k].file < |s.files|
    {
      HeldIsOwed(s, remote, b, k);
    }
    BufsKept(s, s', remote);
    assert KeySets(s') == KeySets(s);
    PartitionSame(KeySets(s), c => Owed(s, c), c => Owed(s', c));
  }

  // ---------------------------------------------------------------- bytes of a buffer

  /** What ContentAppend writes extends the prefix already there by the new bytes. */
  lemma AppendExtendsPrefix(mem: seq<Byte>, cursor: nat, len: nat, body: seq<Byte>, data: seq<Byte>)
    requires cursor + len <= |mem| && Prefixes(body, mem[cursor..cursor + len])
    ensures var mem' := Appended(mem, cursor, len, |body|, data);
      && Prefixes(body + data, mem'[cursor..cursor + len])
      && forall p :: 0 <= p < |mem| && !(cursor <= p < cursor + len) ==> mem'[p] == mem[p]
  {
    var mem' := Appended(mem, cursor, len, |body|, data);
    var here, here' := mem[cursor..cursor + len], mem'[cursor..cursor + len];
    forall j | 0 <= j < |body + data| && j < len
      ensures here'[j] == (body + data)[j]
    {
      assert here'[j] == mem'[cursor + j] && here[j] == mem[cursor + j];
    }
  }

  lemma ReceiveKeepsBufs(s: State, remote: seq<seq<Byte>>, c: Chunk, b: nat, k: nat, data: seq<Byte>)
    requires Inv(s, remote) && Enabled(s, remote, Receive(c, b, k, data))
    ensures BufsOk(ExecReceive(s, c, b, k, data), remote)
  {
    var s' := ExecReceive(s, c, b, k, data);
    forall a | 0 <= a < |s'.bufs|
      ensures BufOk(s', remote, s'.bufs[a])
    {
      assert BufOk(s, remote, s.bufs[a]);
      forall j | 0 <= j < |s.bufs[a].slots|
        ensures SlotOk(s', remote, s'.bufs[a].mem, s.bufs[a].slots[j])
      {
        ReceiveKeepsSlot(s, remote, c, b, k, data, a, j);
      }
    }
  }

  lemma ReceiveKeepsFiles(s: State, remote: seq<seq<Byte>>, c: Chunk, b: nat, k: nat, data: seq<Byte>)
    requires FilesOk(s, remote) && Enabled(s, remote, Receive(c, b, k, data))
    ensures FilesOk(ExecReceive(s, c, b, k, data), remote)
  {
    assert FileOk(s.files[c.file], remote[c.file]);
    assert FileOk(ExecReceive(s, c, b, k, data).files[c.file], remote[c.file]);
  }

  lemma ReceiveKeepsPlaces(s: State, c: Chunk, b: nat, k: nat, data: seq<Byte>)
    requires PlacesOk(s) && Running(s, c) && SlotIs(s, b, k, c)
    ensures PlacesOk(ExecReceive(s, c, b, k, data))
    ensures KeySets(ExecReceive(s, c, b, k, data)) == KeySets(s)
  {
    PlacesKept(s, ExecReceive(s, c, b, k, data), b);
  }

  lemma ReceiveKeepsInv(s: State, remote: seq<seq<Byte>>, c: Chunk, b: nat, k: nat, data: seq<Byte>)
    requires Inv(s, remote) && Enabled(s, remote, Receive(c, b, k, data))
    ensures Inv(ExecReceive(s, c, b, k, data), remote)
  {
    var s' := ExecReceive(s, c, b, k, data);
    ReceiveKeepsFiles(s, remote, c, b, k, data);
    ReceiveKeepsBufs(s, remote, c, b, k, data);
    ReceiveKeepsPlaces(s, c, b, k, data);
    PartitionSame(KeySets(s), d => Owed(s, d), d => Owed(s', d));
  }

  /** Bytes that arrive for one chunk leave the regions of the others alone. */
  lemma ReceiveKeepsOther(s: State, remote: seq<seq<Byte>>, c: Chunk, b: nat, k: nat, data: seq<Byte>, a: nat, j: nat)
    requires Inv(s, remote) && Enabled(s, remote, Receive(c, b, k, data)) && a < |s.bufs| && j < |s.bufs[a].slots|
    requires KeyOf(s.bufs[a].slots[j]) != c && s.bufs[b].slots[k].cursor + s.bufs[b].slots[k].len <= |s.bufs[b].mem|
    ensures var s', other := ExecReceive(s, c, b, k, data), s.bufs[a].slots[j];
      && other.cursor + other.len <= |s.bufs[a].mem| == |s'.bufs[a].mem|
      && s'.bufs[a].mem[other.cursor..other.cursor + other.len] == s.bufs[a].mem[other.cursor..other.cursor + other.len]
  {
    var other, slot := s.bufs[a].slots[j], s.bufs[b].slots[k];
    HeldIsOwed(s, remote, a, j);
    if a == b {
      assert BufOk(s, remote, s.bufs[b]);
      assert Apart(other, slot.cursor, slot.len);
      AppendKeepsApart(s.bufs[b].mem, slot.cursor, slot.len, |s.files[c.file].requests[c.index]|, data,
                       other.cursor, other.cursor + other.len);
    }
  }

  lemma AppendKeepsApart(mem: seq<Byte>, cursor: nat, len: nat, total: nat, data: seq<Byte>, from: nat, to: nat)
    requires from <= to <= |mem| && cursor + len <= |mem| && (to <= cursor || cursor + len <= from || from == to)
    ensures Appended(mem, cursor, len, total, data)[from..to] == mem[from..to]
  {}

  /** They extend what the chunk's own region holds. */
  lemma ReceiveExtends(s: State, remote: seq<seq<Byte>>, c: Chunk, b: nat, k: nat, data: seq<Byte>)
    requires Enabled(s, remote, Receive(c, b, k, data)) && SlotOk(s, remote, s.bufs[b].mem, s.bufs[b].slots[k])
    ensures var s' := ExecReceive(s, c, b, k, data); SlotOk(s', remote, s'.bufs[b].mem, s.bufs[b].slots[k])
  {
    var slot := s.bufs[b].slots[k];
    AppendExtendsPrefix(s.bufs[b].mem, slot.cursor, slot.len, s.files[c.file].requests[c.index], data);
  }

  lemma ReceiveKeepsSlot(s: State, remote: seq<seq<Byte>>, c: Chunk, b: nat, k: nat, data: seq<Byte>, a: nat, j: nat)
    requires Inv(s, remote) && Enabled(s, remote, Receive(c, b, k, data)) && a < |s.bufs| && j < |s.bufs[a].slots|
    ensures var s' := ExecReceive(s, c, b, k, data); SlotOk(s', remote, s'.bufs[a].mem, s.bufs[a].slots[j])
  {
    HeldIsOwed(s, remote, b, k);
    HeldIsOwed(s, remote, a, j);
    if KeyOf(s.bufs[a].slots[j]) == c {
      HeldOnce(s, remote, b, k, a, j);
      ReceiveExtends(s, remote, c, b, k, data);
    } else {
      var s' := ExecReceive(s, c, b, k, data);
      ReceiveKeepsOther(s, remote, c, b, k, data, a, j);
      SlotKept(s, s', remote, s.bufs[a].mem, s'.bufs[a].mem, s.bufs[a].slots[j]);
    }
  }

  lemma ProgressKeepsSlot(s: State, remote: seq<seq<Byte>>, c: Chunk, b: nat, k: nat, n: nat, j: nat)
    requires Inv(s, remote) && Enabled(s, remote, Progress(c, b, k, n)) && j < |s.bufs[b].slots|
    ensures var slots, r := s.bufs[b].slots, SetDownloaded(s.bufs[b].slots, c, n);
      && SlotOk(PutSlots(s, b, r), remote, s.bufs[b].mem, r[j])
      && (slots[j].downloaded == slots[j].len ==> r[j].downloaded == r[j].len)
  {
    HeldIsOwed(s, remote, b, j);
    if KeyOf(s.bufs[b].slots[j]) == c {
      HeldOnce(s, remote, b, k, b, j);
      FullPrefixIsRange(s.files[c.file], remote[c.file], s.bufs[b].mem, s.bufs[b].slots[k]);
    }
  }

  lemma ProgressKeepsBuf(s: State, remote: seq<seq<Byte>>, c: Chunk, b: nat, k: nat, n: nat)
    requires Inv(s, remote) && Enabled(s, remote, Progress(c, b, k, n))
    ensures var r := SetDownloaded(s.bufs[b].slots, c, n);
      && (AllDownloaded(s.bufs[b].slots) ==> AllDownloaded(r))
      && BufOk(PutSlots(s, b, r), remote, s.bufs[b].(slots := r))
  {
    assert BufOk(s, remote, s.bufs[b]);
    forall j | 0 <= j < |s.bufs[b].slots| {
      ProgressKeepsSlot(s, remote, c, b, k, n, j);
    }
  }

  lemma ProgressKeepsInv(s: State, remote: seq<seq<Byte>>, c: Chunk, b: nat, k: nat, n: nat)
    requires Inv(s, remote) && Enabled(s, remote, Progress(c, b, k, n))
    ensures Inv(Exec(s, remote, Progress(c, b, k, n)), remote)
  {
    var s' := Exec(s, remote, Progress(c, b, k, n));
    KeysOfSetDownloaded(s.bufs[b].slots, c, n);
    ProgressKeepsBuf(s, remote, c, b, k, n);
    OneBufChanged(s, s', remote, b);
    assert KeySets(s') == KeySets(s);
    PartitionSame(KeySets(s), d => Owed(s, d), d => Owed(s', d));
  }

  /** An exact body of full length leaves exactly the range in the region. */
  lemma FullPrefixIsRange(file: FileState, r: seq<Byte>, mem: seq<Byte>, slot: Slot)
    requires slot.cursor + slot.len <= |mem| && slot.index in file.requests && SlotBytes(file, r, mem, slot)
    ensures |file.requests[slot.index]| == slot.len ==>
      mem[slot.cursor..slot.cursor + slot.len] == file.requests[slot.index]
  {}

  /** The other buffers stay good when the files they depend on do not change. */
  lemma OneBufChanged(s: State, s': State, remote: seq<seq<Byte>>, b: nat)
    requires BufsOk(s, remote) && s'.files == s.files && b < |s.bufs| == |s'.bufs|
    requires s'.bufs == s.bufs[b := s'.bufs[b]] && BufOk(s', remote, s'.bufs[b])
    ensures BufsOk(s', remote)
  {
    forall a | 0 <= a < |s'.bufs|
      ensures BufOk(s', remote, s'.bufs[a])
    {
      assert BufOk(s, remote, s.bufs[a]);
    }
  }

  // ---------------------------------------------------------------- completion of a request

  /** Requests of other chunks are not touched by removing one. */
  lemma AcceptKeepsSlot(s: State, remote: seq<seq<Byte>>, c: Chunk, b: nat, a: nat, j: nat)
    requires Inv(s, remote) && Enabled(s, remote, Complete(c, b, true)) && Accepts(s.files[c.file], c.index, true)
    requires a < |s.bufs| && j < |s.bufs[a].slots|
    ensures var s' := ExecComplete(s, c, b, true);
      && SlotOk(s', remote, s'.bufs[a].mem, s'.bufs[a].slots[j])
      && (s.bufs[a].slots[j].downloaded == s.bufs[a].slots[j].len ==>
            s'.bufs[a].slots[j].downloaded == s'.bufs[a].slots[j].len)
  {
    var s', slot := ExecComplete(s, c, b, true), s.bufs[a].slots[j];
    HeldIsOwed(s, remote, a, j);
    assert FileOk(s.files[c.file], remote[c.file]);
    if KeyOf(slot) == c {
      AcceptedIsHere(s, remote, c, b, a, j);
      FullPrefixIsRange(s.files[c.file], remote[c.file], s.bufs[a].mem, slot);
    } else {
      SlotKept(s, s', remote, s.bufs[a].mem, s.bufs[a].mem, slot);
    }
  }

  /** The completing chunk, when held at all, is held in the buffer the callback names. */
  lemma AcceptedIsHere(s: State, remote: seq<seq<Byte>>, c: Chunk, b: nat, a: nat, j: nat)
    requires Inv(s, remote) && Enabled(s, remote, Complete(c, b, true))
    requires a < |s.bufs| && j < |s.bufs[a].slots| && KeyOf(s.bufs[a].slots[j]) == c
    ensures a == b
  {
    HeldIsOwed(s, remote, a, j);
    assert c in Keys(s.bufs[b].slots);
    var k :| 0 <= k < |s.bufs[b].slots| && KeyOf(s.bufs[b].slots[k]) == c;
    HeldOnce(s, remote, b, k, a, j);
  }

  lemma SetDownloadedKeepsShape(slots: seq<Slot>, c: Chunk, n: nat)
    requires Packed(slots, CAP) && NoDup(slots)
    ensures Packed(SetDownloaded(slots, c, n), CAP) && NoDup(SetDownloaded(slots, c, n))
  {}

  lemma AcceptKeepsBuf(s: State, remote: seq<seq<Byte>>, c: Chunk, b: nat, a: nat)
    requires Inv(s, remote) && Enabled(s, remote, Complete(c, b, true)) && Accepts(s.files[c.file], c.index, true)
    requires a < |s.bufs|
    ensures var s' := ExecComplete(s, c, b, true);
      BufOk(s', remote, s'.bufs[a]) && (AllDownloaded(s.bufs[a].slots) ==> AllDownloaded(s'.bufs[a].slots))
  {
    assert BufOk(s, remote, s.bufs[a]);
    SetDownloadedKeepsShape(s.bufs[a].slots, c, |s.files[c.file].requests[c.index]|);
    forall j | 0 <= j < |s.bufs[a].slots| {
      AcceptKeepsSlot(s, remote, c, b, a, j);
    }
  }

  lemma AcceptKeepsBufs(s: State, remote: seq<seq<Byte>>, c: Chunk, b: nat)
    requires Inv(s, remote) && Enabled(s, remote, Complete(c, b, true)) && Accepts(s.files[c.file], c.index, true)
    ensures BufsOk(ExecComplete(s, c, b, true), remote)
    ensures AllDownloaded(s.bufs[b].slots) ==> AllDownloaded(ExecComplete(s, c, b, true).bufs[b].slots)
  {
    forall a | 0 <= a < |s.bufs| {
      AcceptKeepsBuf(s, remote, c, b, a);
    }
  }

  lemma AcceptKeepsFiles(s: State, remote: seq<seq<Byte>>, c: Chunk, b: nat)
    requires FilesOk(s, remote) && Enabled(s, remote, Complete(c, b, true)) && Accepts(s.files[c.file], c.index, true)
    ensures FilesOk(ExecComplete(s, c, b, true), remote)
  {
    RequestDropped(s, remote, c);
  }

  lemma AcceptKeepsKeys(s: State, remote: seq<seq<Byte>>, c: Chunk, b: nat)
    requires Enabled(s, remote, Complete(c, b, true)) && Accepts(s.files[c.file], c.index, true)
    ensures KeySets(ExecComplete(s, c, b, true)) == KeySets(s)
  {
    KeysOfSetDownloaded(s.bufs[b].slots, c, |s.files[c.file].requests[c.index]|);
  }

  lemma AcceptKeepsInv(s: State, remote: seq<seq<Byte>>, c: Chunk, b: nat)
    requires Inv(s, remote) && Enabled(s, remote, Complete(c, b, true)) && Accepts(s.files[c.file], c.index, true)
    ensures Inv(ExecComplete(s, c, b, true), remote)
  {
    var s' := ExecComplete(s, c, b, true);
    AcceptKeepsFiles(s, remote, c, b);
    AcceptKeepsBufs(s, remote, c, b);
    AcceptKeepsKeys(s, remote, c, b);
    PlacesKept(s, s', b);
    PartitionSame(KeySets(s), d => Owed(s, d), d => Owed(s', d));
  }

  lemma RequestDropped(s: State, remote: seq<seq<Byte>>, c: Chunk)
    requires FilesOk(s, remote) && Running(s, c)
    ensures FileOk(s.files[c.file].(requests := s.files[c.file].requests - {c.index}), remote[c.file])
    ensures FileOk(s.files[c.file], remote[c.file])
  {
    assert FileOk(s.files[c.file], remote[c.file]);
  }

  /** Buffers stay where they are, and a buffer's slots may change as long as they stay full or empty. */
  lemma PlacesKept(s: State, s': State, b: nat)
    requires PlacesOk(s) && s'.pool == s.pool && s'.inIO == s.inIO && s'.ioDone == s.ioDone
    requires b < |s.bufs| == |s'.bufs|
    requires forall a :: 0 <= a < |s.bufs| && a != b ==> s'.bufs[a].slots == s.bufs[a].slots
    requires AllDownloaded(s.bufs[b].slots) ==> AllDownloaded(s'.bufs[b].slots)
    requires s.bufs[b].slots == [] ==> s'.bufs[b].slots == []
    ensures PlacesOk(s')
  {}

  /** A rejected response belongs to a chunk its buffer still holds. */
  lemma RejectedIsHeld(s: State, remote: seq<seq<Byte>>, c: Chunk, b: nat, ok: bool) returns (k: nat)
    requires Inv(s, remote) && Enabled(s, remote, Complete(c, b, ok)) && !Accepts(s.files[c.file], c.index, ok)
    ensures k < |s.bufs[b].slots| && KeyOf(s.bufs[b].slots[k]) == c && Owed(s, c) && c in KeySets(s)[b]
  {
    k :| 0 <= k < |s.bufs[b].slots| && KeyOf(s.bufs[b].slots[k]) == c;
    HeldIsOwed(s, remote, b, k);
  }

  lemma RejectKeepsBufs(s: State, remote: seq<seq<Byte>>, c: Chunk, b: nat, ok: bool)
    requires Inv(s, remote) && Enabled(s, remote, Complete(c, b, ok)) && !Accepts(s.files[c.file], c.index, ok)
    ensures BufsOk(ExecComplete(s, c, b, ok), remote)
  {
    var s' := ExecComplete(s, c, b, ok);
    var k := RejectedIsHeld(s, remote, c, b, ok);
    KeysOfRemoved(s.bufs[b].slots, c.file, c.index);
    RemoveKeepsPacked(s.bufs[b].slots, CAP, c.file, c.index);
    forall a | 0 <= a < |s'.bufs|
      ensures BufOk(s', remote, s'.bufs[a])
    {
      assert BufOk(s, remote, s.bufs[a]);
      forall j | 0 <= j < |s'.bufs[a].slots|
        ensures SlotOk(s', remote, s'.bufs[a].mem, s'.bufs[a].slots[j])
      {
        RejectKeepsSlot(s, remote, c, b, ok, k, a, s'.bufs[a].slots[j]);
      }
    }
  }

  lemma RejectKeepsSlot(s: State, remote: seq<seq<Byte>>, c: Chunk, b: nat, ok: bool, k: nat, a: nat, slot: Slot)
    requires Inv(s, remote) && Enabled(s, remote, Complete(c, b, ok)) && !Accepts(s.files[c.file], c.index, ok)
    requires k < |s.bufs[b].slots| && KeyOf(s.bufs[b].slots[k]) == c
    requires a < |s.bufs| && slot in s.bufs[a].slots && (a == b ==> KeyOf(slot) != c)
    ensures SlotOk(ExecComplete(s, c, b, ok), remote, s.bufs[a].mem, slot)
  {
    var j :| 0 <= j < |s.bufs[a].slots| && s.bufs[a].slots[j] == slot;
    HeldIsOwed(s, remote, a, j);
    if KeyOf(slot) == c {
      HeldOnce(s, remote, b, k, a, j);
    }
    assert FileOk(s.files[c.file], remote[c.file]);
    SlotKept(s, ExecComplete(s, c, b, ok), remote, s.bufs[a].mem, s.bufs[a].mem, slot);
  }

  lemma RejectKeepsFiles(s: State, remote: seq<seq<Byte>>, c: Chunk, b: nat, ok: bool)
    requires FilesOk(s, remote) && Enabled(s, remote, Complete(c, b, ok)) && !Accepts(s.files[c.file], c.index, ok)
    requires Owed(s, c)
    ensures FilesOk(ExecComplete(s, c, b, ok), remote)
  {
    RejectKeepsFile(s.files[c.file], remote[c.file], c.index);
  }

  lemma RejectKeepsInv(s: State, remote: seq<seq<Byte>>, c: Chunk, b: nat, ok: bool)
    requires Inv(s, remote) && Enabled(s, remote, Complete(c, b, ok)) && !Accepts(s.files[c.file], c.index, ok)
    ensures Inv(ExecComplete(s, c, b, ok), remote)
  {
    var s' := ExecComplete(s, c, b, ok);
    var k := RejectedIsHeld(s, remote, c, b, ok);
    RejectKeepsFiles(s, remote, c, b, ok);
    assert BufOk(s, remote, s.bufs[b]);
    RejectKeepsBufs(s, remote, c, b, ok);
    RejectKeepsPlaces(s, s', c, b);
    RejectDropsKey(s, s', c, b);
    PartitionDrop(KeySets(s), d => Owed(s, d), KeySets(s'), d => Owed(s', d), b, c);
  }

  lemma RejectKeepsPlaces(s: State, s': State, c: Chunk, b: nat)
    requires PlacesOk(s) && b < |s.bufs| && NoDup(s.bufs[b].slots)
    requires s'.pool == s.pool && s'.inIO == s.inIO && s'.ioDone == s.ioDone
    requires s'.bufs == s.bufs[b := s.bufs[b].(slots := Removed(s.bufs[b].slots, c.file, c.index))]
    ensures PlacesOk(s')
  {
    KeysOfRemoved(s.bufs[b].slots, c.file, c.index);
    PlacesKept(s, s', b);
  }

  lemma RejectDropsKey(s: State, s': State, c: Chunk, b: nat)
    requires b < |s.bufs| && NoDup(s.bufs[b].slots)
    requires s'.bufs == s.bufs[b := s.bufs[b].(slots := Removed(s.bufs[b].slots, c.file, c.index))]
    ensures KeySets(s') == KeySets(s)[b := KeySets(s)[b] - {c}]
  {
    KeysOfRemoved(s.bufs[b].slots, c.file, c.index);
  }

  lemma RejectKeepsFile(file: FileState, r: seq<Byte>, i: nat)
    requires FileOk(file, r) && OwedBy(file, i)
    ensures FileOk(file.(requests := file.requests - {i}, flags := file.flags[i := false]), r)
  {}

  // ---------------------------------------------------------------- saving

  lemma WriteRange(content: seq<Byte>, r: seq<Byte>, i: nat, data: seq<Byte>)
    requires |content| == |r| > 0 && i < ChunkNum(|r|) && |data| == Second(i, |r|) - First(i)
    ensures var after := Overwrite(content, First(i), data);
      && (IsRange(r, i, data) ==> Written(after, r, i))
      && forall j: nat :: j < ChunkNum(|r|) && j != i && Written(content, r, j) ==> Written(after, r, j)
  {
    var after := Overwrite(content, First(i), data);
    if IsRange(r, i, data) {
      forall p | First(i) <= p < Second(i, |r|)
        ensures after[p] == r[p]
      {
        assert data[p - First(i)] == r[p];
      }
    }
    forall j: nat | j < ChunkNum(|r|) && j != i && Written(content, r, j)
      ensures Written(after, r, j)
    {
      assert j < i ==> First(j) + CHUNK_SIZE <= First(i);
      assert i < j ==> First(i) + CHUNK_SIZE <= First(j);
    }
  }

  lemma SavedFile(file: FileState, r: seq<Byte>, i: nat, data: seq<Byte>)
    requires FileOk(file, r) && file.status != Waiting && OwedBy(file, i) && IsRange(r, i, data)
    ensures FileOk(file.(content := Overwrite(file.content, First(i), data), done := file.done[i := true],
                         downloadSize := file.downloadSize + |data|), r)
  {
    WriteRange(file.content, r, i, data);
    SumDoneSet(file.done, |r|, i);
    FullIffAllDone(file.done, |r|);
  }

  lemma LostFile(file: FileState, r: seq<Byte>, i: nat, junk: seq<Byte>)
    requires FileOk(file, r) && file.status != Waiting && OwedBy(file, i) && |junk| == Second(i, |r|) - First(i)
    ensures FileOk(file.(content := Overwrite(file.content, First(i), junk), lost := file.lost + {i}), r)
  {
    WriteRange(file.content, r, i, junk);
  }

  lemma SaveKeepsInv(s: State, remote: seq<seq<Byte>>, ok: bool, junk: seq<Byte>)
    requires Inv(s, remote) && Enabled(s, remote, Save(ok, junk))
    ensures Inv(ExecSave(s, ok, junk), remote)
  {
    var s', b := ExecSave(s, ok, junk), s.inIO[0];
    var slots := s.bufs[b].slots;
    var c := KeyOf(slots[0]);
    HeldIsOwed(s, remote, b, 0);
    SaveKeepsFile(s, remote, ok, junk);
    assert BufOk(s, remote, s.bufs[b]);
    KeysOfTail(slots);
    SaveKeepsBufs(s, remote, ok, junk);
    PlacesKept(s, s', b);
    assert KeySets(s') == KeySets(s)[b := KeySets(s)[b] - {c}];
    PartitionDrop(KeySets(s), d => Owed(s, d), KeySets(s'), d => Owed(s', d), b, c);
  }

  lemma SaveKeepsFile(s: State, remote: seq<seq<Byte>>, ok: bool, junk: seq<Byte>)
    requires Inv(s, remote) && Enabled(s, remote, Save(ok, junk))
    ensures FilesOk(ExecSave(s, ok, junk), remote)
  {
    var b := s.inIO[0];
    var slot := s.bufs[b].slots[0];
    HeldIsOwed(s, remote, b, 0);
    assert b in s.inIO;
    assert FileOk(s.files[slot.file], remote[slot.file]);
    if ok {
      SavedFile(s.files[slot.file], remote[slot.file], slot.index, s.bufs[b].mem[slot.cursor..slot.cursor + slot.len]);
    } else {
      LostFile(s.files[slot.file], remote[slot.file], slot.index, junk);
    }
  }

  lemma SaveKeepsBufs(s: State, remote: seq<seq<Byte>>, ok: bool, junk: seq<Byte>)
    requires Inv(s, remote) && Enabled(s, remote, Save(ok, junk))
    ensures BufsOk(ExecSave(s, ok, junk), remote)
  {
    var s' := ExecSave(s, ok, junk);
    forall a | 0 <= a < |s'.bufs|
      ensures BufOk(s', remote, s'.bufs[a])
    {
      assert BufOk(s, remote, s.bufs[a]);
      forall j | 0 <= j < |s.bufs[a].slots|
        ensures SlotOk(s', remote, s.bufs[a].mem, s.bufs[a].slots[j])
      {
        HeldIsOwed(s, remote, a, j);
        SlotKept(s, s', remote, s.bufs[a].mem, s.bufs[a].mem, s.bufs[a].slots[j]);
      }
    }
  }

  // ---------------------------------------------------------------- every run

  lemma StepKeepsInv(s: State, remote: seq<seq<Byte>>, e: Event)
    requires Inv(s, remote) && Enabled(s, remote, e)
    ensures Inv(Exec(s, remote, e), remote)
  {
    match e
    case Head(f) => HeadKeepsInv(s, remote, f);
    case Loop(f) => LoopKeepsInv(s, remote, f);
    case Receive(c, b, k, data) => ReceiveKeepsInv(s, remote, c, b, k, data);
    case Progress(c, b, k, n) => ProgressKeepsInv(s, remote, c, b, k, n);
    case Complete(c, b, ok) =>
      if Accepts(s.files[c.file], c.index, ok) {
        AcceptKeepsInv(s, remote, c, b);
      } else {
        RejectKeepsInv(s, remote, c, b, ok);
      }
    case Transfer(j) => TransferKeepsInv(s, remote, j);
    case Recycle => RecycleKeepsInv(s, remote);
    case Save(ok, junk) => SaveKeepsInv(s, remote, ok, junk);
    case Release => ReleaseKeepsInv(s, remote);
  }

  /** The state after the events, if each of them is possible in its turn. */
  ghost function Follow(s: State, remote: seq<seq<Byte>>, es: seq<Event>): Option<State> {
    if es == [] then Some(s)
    else
      match Follow(s, remote, es[..|es| - 1])
      case None => None
      case Some(m) =>
        var e := es[|es| - 1];
        if Enabled(m, remote, e) then Some(Exec(m, remote, e)) else None
  }

  lemma FollowSnoc(s: State, remote: seq<seq<Byte>>, es: seq<Event>, m: State, e: Event)
    requires Follow(s, remote, es) == Some(m) && Enabled(m, remote, e)
    ensures Follow(s, remote, es + [e]) == Some(Exec(m, remote, e))
  {
    assert (es + [e])[..|es|] == es;
  }

  lemma {:induction false} FollowConcat(s: State, remote: seq<seq<Byte>>, es: seq<Event>, m: State, more: seq<Event>)
    requires Follow(s, remote, es) == Some(m)
    ensures Follow(s, remote, es + more) == Follow(m, remote, more)
  {
    if more == [] {
      assert es + more == es;
    } else {
      FollowConcat(s, remote, es, m, more[..|more| - 1]);
      assert (es + more)[..|es + more| - 1] == es + more[..|more| - 1];
    }
  }

  /** Every sequence of events keeps the downloader's invariant. */
  lemma {:induction false} FollowKeepsInv(s: State, remote: seq<seq<Byte>>, es: seq<Event>)
    requires Inv(s, remote) && Follow(s, remote, es).Some?
    ensures Inv(Follow(s, remote, es).value, remote)
  {
    if es != [] {
      FollowKeepsInv(s, remote, es[..|es| - 1]);
      StepKeepsInv(Follow(s, remote, es[..|es| - 1]).value, remote, es[|es| - 1]);
    }
  }

  lemma InitialInv(s: State, remote: seq<seq<Byte>>)
    requires Initial(s, remote)
    ensures Inv(s, remote)
  {
    assert forall b :: 0 <= b < BUF_NUM ==> KeySets(s)[b] == {};
  }

  lemma {:induction false} EveryRunKeepsInv(states: seq<State>, remote: seq<seq<Byte>>, es: seq<Event>, i: nat)
    requires IsRun(states, remote, es) && i <= |es|
    ensures Inv(states[i], remote)
  {
    if i == 0 {
      InitialInv(states[0], remote);
    } else {
      EveryRunKeepsInv(states, remote, es, i - 1);
      assert Steps(states[i - 1], remote, es[i - 1], states[i]);
      StepKeepsInv(states[i - 1], remote, es[i - 1]);
    }
  }

  /** End to end: in every run, a file that was declared finished holds exactly the remote bytes. */
  lemma FinishedFileIsRemote(states: seq<State>, remote: seq<seq<Byte>>, es: seq<Event>, i: nat, f: nat)
    requires IsRun(states, remote, es) && i <= |es| && f < |states[i].files|
    requires states[i].files[f].status == Finished
    ensures f < |remote| && states[i].files[f].content == remote[f]
  {
    EveryRunKeepsInv(states, remote, es, i);
    var file, r := states[i].files[f], remote[f];
    assert FileOk(file, r);
    FullIffAllDone(file.done, |r|);
    forall p | 0 <= p < |r|
      ensures file.content[p] == r[p]
    {
      RangesTile(|r|, p);
      assert Written(file.content, r, p / CHUNK_SIZE);
    }
  }

  /** Conservation: in every run each chunk is exactly one of unflagged, held by exactly one
      buffer, complete, or lost to a failed write; the counter is the sum of the complete chunks. */
  lemma ChunkLifecycle(states: seq<State>, remote: seq<seq<Byte>>, es: seq<Event>, i: nat, f: nat, x: nat)
    requires IsRun(states, remote, es) && i <= |es| && f < |states[i].files| && x < |states[i].files[f].flags|
    ensures var s, file := states[i], states[i].files[f];
      && f < |remote| && |remote[f]| > 0 && |file.done| == |file.flags| == ChunkNum(|remote[f]|)
      && (file.done[x] ==> file.flags[x] && x !in file.lost)
      && (x in file.lost ==> file.flags[x])
      && (HeldIn(KeySets(s), Chunk(f, x)) <==> file.flags[x] && !file.done[x] && x !in file.lost)
      && (forall a, b :: 0 <= a < |s.bufs| && 0 <= b < |s.bufs| ==>
            Chunk(f, x) in KeySets(s)[a] && Chunk(f, x) in KeySets(s)[b] ==> a == b)
      && file.downloadSize == SumDone(file.done, |remote[f]|)
      && (file.downloadSize == |remote[f]| <==> AllSet(file.done))
  {
    EveryRunKeepsInv(states, remote, es, i);
    var s, file := states[i], states[i].files[f];
    assert FileOk(file, remote[f]);
    FullIffAllDone(file.done, |remote[f]|);
    assert (c => Owed(s, c))(Chunk(f, x)) <==> HeldIn(KeySets(s), Chunk(f, x));
  }

  /** No buffer is ever lost or in two places, and what waits for the I/O thread is fully downloaded. */
  lemma BuffersConserved(states: seq<State>, remote: seq<seq<Byte>>, es: seq<Event>, i: nat)
    requires IsRun(states, remote, es) && i <= |es|
    ensures var s := states[i];
      && |s.pool| + |s.inIO| + |s.ioDone| == BUF_NUM
      && forall b :: 0 <= b < BUF_NUM ==> multiset(s.pool + s.inIO + s.ioDone)[b] == 1
  {
    EveryRunKeepsInv(states, remote, es, i);
    var s := states[i];
    assert multiset(s.pool + s.inIO + s.ioDone) == multiset{0, 1, 2, 3};
    assert |multiset(s.pool + s.inIO + s.ioDone)| == |s.pool + s.inIO + s.ioDone|;
  }
}
